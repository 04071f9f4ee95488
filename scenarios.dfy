/** Request sequences from drive/tests.py, and a few they leave out, on a
    fresh store.  Each method's postcondition is the outcome the handlers'
    contracts force. */
module Scenarios {
  import opened Wrappers
  import opened Models
  import opened Permissions
  import opened Serializers
  import opened Store
  import opened Views

  /** The share body `{"user_ids": [a, b]}` parses to the ids a and b. */
  lemma ParsePair(a: int, b: int)
    ensures ParseUserIds(Some([JsonInt(a), JsonInt(b)])) == Some([a, b])
  {
    var raw := [JsonInt(a), JsonInt(b)];
    assert forall i :: 0 <= i < |raw| ==> raw[i].JsonInt?;
    var r := ParseUserIds(Some(raw));
    assert raw[0] == JsonInt(r.value[0]) && raw[1] == JsonInt(r.value[1]);
    assert r.value == [a, b];
  }

  /** The share body `{"user_ids": [a]}` parses to the id a. */
  lemma ParseSingle(a: int)
    ensures ParseUserIds(Some([JsonInt(a)])) == Some([a])
  {
    var raw := [JsonInt(a)];
    assert forall i :: 0 <= i < |raw| ==> raw[i].JsonInt?;
    var r := ParseUserIds(Some(raw));
    assert raw[0] == JsonInt(r.value[0]);
    assert r.value == [a];
  }

  /** A known recipient is kept. */
  lemma RecipientsSingle(a: int, users: set<UserId>)
    requires a in users
    ensures Recipients([a], users) == [a]
  {
    assert [a][..0] == [];
  }

  /** An unknown id after a known one is skipped. */
  lemma RecipientsSkipUnknown(a: int, b: int, users: set<UserId>)
    requires a in users && b !in users
    ensures Recipients([a, b], users) == [a]
  {
    assert [a, b][..1] == [a];
    RecipientsSingle(a, users);
  }

  /** Text that a CharField accepts and keeps exactly as sent. */
  predicate Clean(s: string)
  {
    FilledText(s) && Trim(s) == s
  }

  /** ASCII text, which Unicode NFKC normalization leaves unchanged; the
      account manager stores the username normalized. */
  predicate Ascii(s: string)
  {
    forall i :: 0 <= i < |s| ==> s[i] as int < 128
  }

  /** Text with no whitespace at either end and no NUL character is kept as sent. */
  lemma CleanWhenUnpadded(s: string)
    requires s != [] && !IsWhitespace(s[0]) && !IsWhitespace(s[|s| - 1]) && NoNulCharacter(s)
    ensures Clean(s)
  {
    TrimKeepsUnpadded(s);
  }

  /** The values drive/tests.py sends. */
  const TestFileName: string := "test_file"
  const TestNewName: string := "updated_file_name"
  const TestUsername: string := "test_user"
  const TestPassword: string := "test_password"

  /** The file name the upload test sends is kept as sent. */
  lemma TestFileNameClean()
    ensures Clean(TestFileName)
  {
    CleanWhenUnpadded(TestFileName);
  }

  /** The new name the update test sends is kept as sent. */
  lemma TestNewNameClean()
    ensures Clean(TestNewName)
  {
    CleanWhenUnpadded(TestNewName);
  }

  /** The tests' username is kept as sent. */
  lemma TestUsernameClean()
    ensures Clean(TestUsername)
  {
    CleanWhenUnpadded(TestUsername);
  }

  /** The tests' username is ASCII, so normalization keeps it. */
  lemma TestUsernameAscii()
    ensures Ascii(TestUsername)
  {
  }

  /** The tests' password is kept as sent. */
  lemma TestPasswordClean()
    ensures Clean(TestPassword)
  {
    CleanWhenUnpadded(TestPassword);
  }

  /** Registration data whose passwords carry one leading space is cleaned to
      the unpadded passwords. */
  lemma PaddedPasswordsCleaned(username: string, email: string, password: string, users: map<UserId, User>)
    requires Clean(username) && |username| <= MaxUsernameLength && Clean(email) && Clean(password)
    requires forall u :: u in users ==> users[u].username != username
    ensures CleanRegistration(RegistrationInput(username, email, " " + password, " " + password), users)
            == Some(RegistrationInput(username, email, password, password))
  {
    assert Trim(" " + password) == password by {
      TrimIgnoresPadding(" ", password, "");
      assert " " + password + "" == " " + password;
    }
  }

  /** FileUploadAPITest and AuthenticatedAPITest, for a name such as
      "test_file": a signed-in user uploads a file and lists it; an anonymous
      list is refused. */
  method UploadThenList(name: string) returns (upload: Status, list: Status, listed: set<FileView>, anonymous: Status)
    requires Clean(name) && |name| <= MaxNameLength
    ensures upload == Created && list == Ok && anonymous == Unauthorized
    ensures |listed| == 1 && forall v :: v in listed ==> v.name == name
  {
    var drive := new Drive();
    var u := drive.CreateUser(User("test_user", "", "test_password"));
    var body;
    upload, body := UploadFile(drive, Some(u), FileInput(None, Some(name), Some(7), None));
    list, listed := ListFiles(drive, Some(u));
    var f := body.value.id;
    assert listed == {FileView(f, name, 7)} by {
      assert FileView(f, name, 7) in listed;
    }
    var ignored;
    anonymous, ignored := ListFiles(drive, None);
  }

  /** FileRetrieveUpdateDeleteAPITest, for a new name such as
      "updated_file_name": the owner reads, renames and deletes a file;
      afterwards the id is unknown. */
  method RetrieveUpdateDelete(newName: string) returns (file: FileId, read: Status, readId: int, update: Status,
                                                        renamed: string, delete: Status, readAgain: Status)
    requires Clean(newName) && |newName| <= MaxNameLength
    ensures read == Ok && readId == file
    ensures update == Ok && renamed == newName
    ensures delete == NoContent && readAgain == NotFound
  {
    var drive := new Drive();
    var u := drive.CreateUser(User("test_user", "", "test_password"));
    file := drive.InsertFile(File("test_file", 0, u));
    var f := file;
    var body;
    read, body := RetrieveFile(drive, Some(u), f);
    readId := body.value.id;
    update, body := UpdateFile(drive, Some(u), f, FileInput(None, Some(newName), None, None));
    renamed := body.value.name;
    delete := DestroyFile(drive, Some(u), f);
    readAgain, body := RetrieveFile(drive, Some(u), f);
  }

  /** One new row appended at `next`. */
  lemma AppendOne(table: map<SharingId, Sharing>, next: nat, row: Sharing)
    requires forall k :: k in table ==> k < next
    ensures Appended(table, next, [row]) == table[next := row]
  {
    assert [row][..0] == [];
  }

  /** The fixture of FileShareAPITest: two accounts, and one file owned by the first. */
  method TwoUsersOneFile() returns (drive: Drive, owner: UserId, other: UserId, file: FileId)
    ensures fresh(drive) && drive.Valid() && owner != other
    ensures drive.db == Db(map[owner := User("test_user1", "", "test_password1"),
                               other := User("test_user2", "", "test_password2")],
                           map[file := File("test_file", 0, owner)], map[], map[], map[], map[])
  {
    drive := new Drive();
    owner := drive.CreateUser(User("test_user1", "", "test_password1"));
    other := drive.CreateUser(User("test_user2", "", "test_password2"));
    file := drive.InsertFile(File("test_file", 0, owner));
  }

  /** FileShareAPITest, continued: the share succeeds, yet the recipient still
      cannot read the file, because sharing writes no Permission row. */
  method ShareDoesNotOpenFile() returns (share: Status, recipientRead: Status, ownerRead: Status)
    ensures share == Created && recipientRead == Forbidden && ownerRead == Ok
  {
    var drive, owner, other, file := TwoUsersOneFile();
    ParseSingle(other);
    share := ShareFile(drive, Some(owner), file, Some([JsonInt(other)]));
    assert drive.db.permissions == map[] && drive.db.files == map[file := File("test_file", 0, owner)];
    assert !HasGrant(drive.db.permissions, file, other, {Read, Change});
    var body;
    recipientRead, body := RetrieveFile(drive, Some(other), file);
    ownerRead, body := RetrieveFile(drive, Some(owner), file);
  }

  /** An id that names no account is skipped without an error. */
  method UnknownIdSkipped() returns (share: Status, rows: nat)
    ensures share == Created && rows == 1
  {
    var drive, owner, other, file := TwoUsersOneFile();
    var unknown := owner + other + 1;
    var row := Sharing(file, other, owner);
    ghost var k := drive.next.sharing;
    ParsePair(other, unknown);
    RecipientsSkipUnknown(other, unknown, drive.db.users.Keys);
    assert ShareRows(file, owner, [other]) == [row];
    AppendOne(map[], k, row);
    assert FileGate(drive.db, Some(owner), POST, file).None?;
    share := ShareFile(drive, Some(owner), file, Some([JsonInt(other), JsonInt(unknown)]));
    assert drive.db.sharings == map[k := row];
    rows := |drive.db.sharings|;
  }

  /** Only the owner may share: the recipient of a share cannot pass it on. */
  method RecipientCannotReshare() returns (share: Status, reshare: Status)
    ensures share == Created && reshare == Forbidden
  {
    var drive, owner, other, file := TwoUsersOneFile();
    ParseSingle(other);
    assert FileGate(drive.db, Some(owner), POST, file).None?;
    share := ShareFile(drive, Some(owner), file, Some([JsonInt(other)]));
    assert drive.db.files == map[file := File("test_file", 0, owner)];
    assert FileGate(drive.db, Some(other), POST, file) == Some(Forbidden);
    ParseSingle(owner);
    reshare := ShareFile(drive, Some(other), file, Some([JsonInt(owner)]));
  }

  /** Registration issues a token, and a later login with the same credentials
      returns that same token rather than a new one. The username is ASCII,
      which the account manager's normalization keeps as it is. */
  method RegisterThenLogin(username: string, email: string, password: string)
    returns (register: Status, issued: Option<TokenKey>, login: Status, returned: Option<TokenKey>, wrongPassword: Status)
    requires Clean(username) && Ascii(username) && |username| <= MaxUsernameLength
    requires Clean(email) && Clean(password)
    ensures register == Created && login == Ok && issued == Some("key-1") && returned == issued
    ensures wrongPassword == BadRequest
  {
    var drive := new Drive();
    ghost var id := drive.next.user;
    register, issued := Register(drive, RegistrationInput(username, email, password, password), "key-1");
    assert drive.db.users == map[id := User(username, email, password)] && drive.db.tokens == map[id := "key-1"];
    assert Authenticates(drive.db.users, id, username, password);
    ghost var account;
    login, returned, account := Login(drive, username, password, "key-2");
    var ignored;
    wrongPassword, ignored, account := Login(drive, username, password + "x", "key-3");
  }

  /** Registration trims the password fields and login does not: an account
      registered with the password " " + p signs in with p and is refused
      with " " + p. The username is ASCII, as above. */
  method PaddedPasswordTrimmedAtRegistration(username: string, email: string, password: string)
    returns (register: Status, padded: Status, trimmed: Status)
    requires Clean(username) && Ascii(username) && |username| <= MaxUsernameLength
    requires Clean(email) && Clean(password)
    ensures register == Created && padded == BadRequest && trimmed == Ok
  {
    var drive := new Drive();
    ghost var id := drive.next.user;
    var spaced := " " + password;
    PaddedPasswordsCleaned(username, email, password, drive.db.users);
    var ignored;
    register, ignored := Register(drive, RegistrationInput(username, email, spaced, spaced), "key-1");
    assert drive.db.users == map[id := User(username, email, password)];
    assert spaced != password by {
      assert |spaced| == |password| + 1;
    }
    ghost var account;
    padded, ignored, account := Login(drive, username, spaced, "key-2");
    assert Authenticates(drive.db.users, id, username, password);
    trimmed, ignored, account := Login(drive, username, password, "key-3");
  }
}
