/** Input validation and output shapes of drive/serializers.py: which fields a
    client may write, what each representation shows, the password check of
    registration, the owner filter applied when a group is created, and the
    shape of a share request. */
module Serializers {
  import opened Wrappers
  import opened Models

  /** FileSerializer's fields ("id", "name", "file"); the owner is not among them. */
  datatype FileView = FileView(id: FileId, name: string, file: ContentRef)

  /** GroupSerializer's output: id, name and the nested files of the group. */
  datatype GroupView = GroupView(id: GroupId, name: string, files: set<FileView>)

  /** A File request body as the client sent it.  `id` and `owner` may be present;
      the serializer never writes either. */
  datatype FileInput = FileInput(id: Option<int>, name: Option<string>, file: Option<ContentRef>, owner: Option<int>)

  /** The validated data of a File request: only the writable fields. */
  datatype FileChanges = FileChanges(name: Option<string>, file: Option<ContentRef>)

  /** A Group request body; `files` holds primary keys of files. */
  datatype GroupInput = GroupInput(id: Option<int>, name: Option<string>, files: Option<seq<FileId>>, owner: Option<int>)

  /** The validated data of a Group request. */
  datatype GroupChanges = GroupChanges(name: Option<string>, files: Option<seq<FileId>>)

  /** A registration request body. */
  datatype RegistrationInput = RegistrationInput(username: string, email: string, password1: string, password2: string)

  /** One element of a JSON list. */
  datatype JsonValue = JsonInt(n: int) | JsonString(s: string) | JsonBool(b: bool) | JsonNull

  /** The username column's length limit. */
  const MaxUsernameLength: nat := 150

  /** The characters Python's `str.strip()` removes: the Unicode whitespace. */
  predicate IsWhitespace(c: char)
  {
    var n := c as int;
    || n == 0x20 || 0x09 <= n <= 0x0D || 0x1C <= n <= 0x1F || n == 0x85 || n == 0xA0
    || n == 0x1680 || 0x2000 <= n <= 0x200A || n == 0x2028 || n == 0x2029
    || n == 0x202F || n == 0x205F || n == 0x3000
  }

  predicate AllWhitespace(s: string)
  {
    forall i :: 0 <= i < |s| ==> IsWhitespace(s[i])
  }

  /** `s` without its leading whitespace. */
  function TrimStart(s: string): (r: string)
    ensures |r| <= |s| && r == s[|s| - |r|..]
    ensures forall i :: 0 <= i < |s| - |r| ==> IsWhitespace(s[i])
    ensures r != [] ==> !IsWhitespace(r[0])
    decreases |s|
  {
    if s != [] && IsWhitespace(s[0]) then TrimStart(s[1..]) else s
  }

  /** `s` without its trailing whitespace. */
  function TrimEnd(s: string): (r: string)
    ensures |r| <= |s| && r == s[..|r|]
    ensures forall i :: |r| <= i < |s| ==> IsWhitespace(s[i])
    ensures r != [] ==> !IsWhitespace(r[|r| - 1])
    decreases |s|
  {
    if s != [] && IsWhitespace(s[|s| - 1]) then TrimEnd(s[..|s| - 1]) else s
  }

  /** `str.strip()`, which CharField applies to its input (trim_whitespace
      defaults to true): leading and trailing whitespace removed. */
  function Trim(s: string): (r: string)
    ensures r == [] <==> AllWhitespace(s)
    ensures r != [] ==> !IsWhitespace(r[0]) && !IsWhitespace(r[|r| - 1])
  {
    TrimEnd(TrimStart(s))
  }

  /** Text that has nothing to trim is kept as it is. */
  lemma TrimKeepsUnpadded(s: string)
    requires s != [] && !IsWhitespace(s[0]) && !IsWhitespace(s[|s| - 1])
    ensures Trim(s) == s
  {
  }

  /** Trimming twice is trimming once. */
  lemma TrimIdempotent(s: string)
    ensures Trim(Trim(s)) == Trim(s)
  {
    if Trim(s) != [] {
      TrimKeepsUnpadded(Trim(s));
    }
  }

  /** Leading whitespace is skipped, however much of it there is. */
  lemma {:induction false} TrimStartSkipsPadding(a: string, x: string)
    requires AllWhitespace(a)
    ensures TrimStart(a + x) == TrimStart(x)
    decreases |a|
  {
    if a == [] {
      assert a + x == x;
    } else {
      assert (a + x)[1..] == a[1..] + x;
      TrimStartSkipsPadding(a[1..], x);
    }
  }

  /** Once some text is reached, what follows it is kept. */
  lemma {:induction false} TrimStartKeepsTail(s: string, b: string)
    requires !AllWhitespace(s)
    ensures TrimStart(s + b) == TrimStart(s) + b
    decreases |s|
  {
    if IsWhitespace(s[0]) {
      assert (s + b)[1..] == s[1..] + b;
      TrimStartKeepsTail(s[1..], b);
    }
  }

  /** Trailing whitespace is skipped, however much of it there is. */
  lemma {:induction false} TrimEndSkipsPadding(x: string, b: string)
    requires AllWhitespace(b)
    ensures TrimEnd(x + b) == TrimEnd(x)
    decreases |b|
  {
    if b == [] {
      assert x + b == x;
    } else {
      assert (x + b)[..|x + b| - 1] == x + b[..|b| - 1];
      TrimEndSkipsPadding(x, b[..|b| - 1]);
    }
  }

  /** Whitespace padded with whitespace is whitespace. */
  lemma BlankStaysBlank(a: string, s: string, b: string)
    requires AllWhitespace(a) && AllWhitespace(s) && AllWhitespace(b)
    ensures AllWhitespace(a + s + b)
  {
    var p := a + s + b;
    forall i | 0 <= i < |p| ensures IsWhitespace(p[i]) {
      if i < |a| { assert p[i] == a[i]; }
      else if i < |a| + |s| { assert p[i] == s[i - |a|]; }
      else { assert p[i] == b[i - |a| - |s|]; }
    }
  }

  /** Padding a text with whitespace on either side does not change what it trims to. */
  lemma {:induction false} TrimIgnoresPadding(a: string, s: string, b: string)
    requires AllWhitespace(a) && AllWhitespace(b)
    ensures Trim(a + s + b) == Trim(s)
  {
    if AllWhitespace(s) {
      BlankStaysBlank(a, s, b);
    } else {
      assert a + s + b == a + (s + b);
      TrimStartSkipsPadding(a, s + b);
      TrimStartKeepsTail(s, b);
      TrimEndSkipsPadding(TrimStart(s), b);
    }
  }

  predicate NoNulCharacter(s: string)
  {
    forall i :: 0 <= i < |s| ==> s[i] != '\0'
  }

  /** What every CharField (allow_blank false) accepts once trimmed: some text,
      and no NUL character. */
  predicate FilledText(s: string)
  {
    0 < |s| && NoNulCharacter(s)
  }

  /** A name CharField(max_length=255), checked on the trimmed value. */
  predicate ValidName(s: string)
  {
    FilledText(s) && |s| <= MaxNameLength
  }

  /** The trimmed value of a supplied text field. */
  function TrimmedOption(o: Option<string>): Option<string>
  {
    if o.Some? then Some(Trim(o.value)) else None
  }

  function FileRepresentation(id: FileId, f: File): (v: FileView)
    ensures v.id == id && v.name == f.name && v.file == f.content
  {
    FileView(id, f.name, f.content)
  }

  /** The owner of a file is not part of what the client sees. */
  lemma FileRepresentationHidesOwner(id: FileId, f: File, owner: UserId)
    ensures FileRepresentation(id, f.(owner := owner)) == FileRepresentation(id, f)
  {
  }

  /** FileSerializer.is_valid: a supplied name is trimmed and must then be a
      valid name; on create (not partial) both name and file are required.  The
      validated data carries the trimmed name and the file only. */
  function ValidateFile(input: FileInput, partial: bool): (r: Option<FileChanges>)
    ensures r.Some? <==> (partial || (input.name.Some? && input.file.Some?))
                         && (input.name.Some? ==> ValidName(Trim(input.name.value)))
    ensures r.Some? ==> r.value.name == TrimmedOption(input.name) && r.value.file == input.file
  {
    if !partial && (input.name.None? || input.file.None?) then None
    else if input.name.Some? && !ValidName(Trim(input.name.value)) then None
    else Some(FileChanges(TrimmedOption(input.name), input.file))
  }

  /** A name of whitespace only is refused, and whitespace around a name is
      neither stored nor counted towards its length. */
  lemma ValidateFileTrimsName(input: FileInput, partial: bool, a: string, b: string)
    requires input.name.Some? && AllWhitespace(a) && AllWhitespace(b)
    ensures AllWhitespace(input.name.value) ==> ValidateFile(input, partial).None?
    ensures ValidateFile(input.(name := Some(a + input.name.value + b)), partial) == ValidateFile(input, partial)
  {
    TrimIgnoresPadding(a, input.name.value, b);
  }

  /** Whatever id and owner the client sends, validation yields the same result. */
  lemma ValidateFileIgnoresIdAndOwner(input: FileInput, id: Option<int>, owner: Option<int>, partial: bool)
    ensures ValidateFile(input.(id := id, owner := owner), partial) == ValidateFile(input, partial)
  {
  }

  /** serializer.save() on an existing file: the supplied fields replace the
      stored ones; the owner is never touched. */
  function ApplyFileChanges(f: File, c: FileChanges): (r: File)
    ensures r.owner == f.owner
    ensures r.name == (if c.name.Some? then c.name.value else f.name)
    ensures r.content == (if c.file.Some? then c.file.value else f.content)
  {
    File(if c.name.Some? then c.name.value else f.name,
         if c.file.Some? then c.file.value else f.content,
         f.owner)
  }

  /** Every primary key in the list names an existing file. */
  predicate AllExist(fs: seq<FileId>, existing: set<FileId>)
  {
    forall i :: 0 <= i < |fs| ==> fs[i] in existing
  }

  /** GroupSerializer.is_valid: a supplied name is trimmed and must then be a
      valid name; a supplied file list must be non-empty and name existing
      files; on create (not partial) both fields are required. */
  function ValidateGroup(input: GroupInput, partial: bool, existing: set<FileId>): (r: Option<GroupChanges>)
    ensures r.Some? <==> (partial || (input.name.Some? && input.files.Some?))
                         && (input.name.Some? ==> ValidName(Trim(input.name.value)))
                         && (input.files.Some? ==>
                               |input.files.value| > 0 && AllExist(input.files.value, existing))
    ensures r.Some? ==> r.value.name == TrimmedOption(input.name) && r.value.files == input.files
  {
    if !partial && (input.name.None? || input.files.None?) then None
    else if input.name.Some? && !ValidName(Trim(input.name.value)) then None
    else if input.files.Some? && (|input.files.value| == 0 || !AllExist(input.files.value, existing)) then None
    else Some(GroupChanges(TrimmedOption(input.name), input.files))
  }

  /** The filter in GroupSerializer.create: keep, in order, the requested files
      whose owner is the requester. */
  function KeepOwned(fs: seq<FileId>, files: map<FileId, File>, requester: UserId): (r: seq<FileId>)
    requires forall i :: 0 <= i < |fs| ==> fs[i] in files
    ensures |r| <= |fs|
    ensures forall f :: f in r <==> f in fs && files[f].owner == requester
    decreases |fs|
  {
    if fs == [] then []
    else
      var rest := KeepOwned(fs[1..], files, requester);
      if files[fs[0]].owner == requester then [fs[0]] + rest else rest
  }

  /** GroupSerializer.to_representation: the group's id and name, and every file
      currently joined to it. */
  function GroupRepresentation(db: Db, g: GroupId): (v: GroupView)
    requires g in db.groups
    ensures v.id == g && v.name == db.groups[g].name
    ensures forall f :: f in db.groups[g].files && f in db.files ==> FileRepresentation(f, db.files[f]) in v.files
    ensures forall w :: w in v.files ==>
              (w.id in db.groups[g].files && w.id in db.files && w == FileRepresentation(w.id, db.files[w.id]))
  {
    GroupView(g, db.groups[g].name,
              set f | f in db.groups[g].files && f in db.files :: FileRepresentation(f, db.files[f]))
  }

  /** UserSerializer.validate: the two password fields must match. */
  function Validate(attrs: RegistrationInput): (r: Result<RegistrationInput, string>)
    ensures r.Failure? <==> attrs.password1 != attrs.password2
    ensures r.Success? ==> r.value == attrs
    ensures r.Failure? ==> r.error == "Passwords must match"
  {
    if attrs.password1 != attrs.password2 then Failure("Passwords must match") else Success(attrs)
  }

  /** The field checks of UserSerializer that run before `validate`.  Every
      field is a CharField (the email an EmailField, itself a CharField), so
      each is trimmed and must then be filled; the username must fit its
      column and must not be taken.  The result is the cleaned data. */
  function CleanRegistration(input: RegistrationInput, users: map<UserId, User>): (r: Option<RegistrationInput>)
    ensures r.Some? <==>
              && FilledText(Trim(input.username)) && |Trim(input.username)| <= MaxUsernameLength
              && (forall u :: u in users ==> users[u].username != Trim(input.username))
              && FilledText(Trim(input.email))
              && FilledText(Trim(input.password1)) && FilledText(Trim(input.password2))
    ensures r.Some? ==> r.value == RegistrationInput(Trim(input.username), Trim(input.email),
                                                     Trim(input.password1), Trim(input.password2))
  {
    var cleaned := RegistrationInput(Trim(input.username), Trim(input.email), Trim(input.password1), Trim(input.password2));
    if && FilledText(cleaned.username) && |cleaned.username| <= MaxUsernameLength
       && (forall u :: u in users ==> users[u].username != cleaned.username)
       && FilledText(cleaned.email) && FilledText(cleaned.password1) && FilledText(cleaned.password2)
    then Some(cleaned)
    else None
  }

  /** UserSerializer.create: the account gets the cleaned username and email,
      and password1 as its password. */
  function NewUser(input: RegistrationInput): (u: User)
    ensures u.username == input.username && u.email == input.email && u.password == input.password1
  {
    User(input.username, input.email, input.password1)
  }

  /** A username that trims to one already taken is refused. */
  lemma TakenUsernameRefused(input: RegistrationInput, users: map<UserId, User>, u: UserId)
    requires u in users && users[u].username == Trim(input.username)
    ensures CleanRegistration(input, users).None?
  {
  }

  /** The account built from accepted data keeps usernames unique. */
  lemma RegistrationKeepsUsernamesUnique(input: RegistrationInput, users: map<UserId, User>, id: UserId)
    requires UniqueUsernames(users) && id !in users
    requires CleanRegistration(input, users).Some?
    ensures UniqueUsernames(users[id := NewUser(CleanRegistration(input, users).value)])
  {
  }

  /** SharingUserSerializer: `user_ids` must be present and a list of integers. */
  function ParseUserIds(raw: Option<seq<JsonValue>>): (r: Option<seq<int>>)
    ensures r.Some? <==> raw.Some? && forall i :: 0 <= i < |raw.value| ==> raw.value[i].JsonInt?
    ensures r.Some? ==> |r.value| == |raw.value|
                        && forall i :: 0 <= i < |r.value| ==> raw.value[i] == JsonInt(r.value[i])
  {
    match raw
    case None => None
    case Some(items) => ParseInts(items)
  }

  function ParseInts(items: seq<JsonValue>): (r: Option<seq<int>>)
    ensures r.Some? <==> forall i :: 0 <= i < |items| ==> items[i].JsonInt?
    ensures r.Some? ==> |r.value| == |items| && forall i :: 0 <= i < |items| ==> items[i] == JsonInt(r.value[i])
    decreases |items|
  {
    if items == [] then Some([])
    else if !items[0].JsonInt? then None
    else match ParseInts(items[1..])
      case None => None
      case Some(rest) => Some([items[0].n] + rest)
  }
}
