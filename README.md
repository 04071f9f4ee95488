# Drive access control, in Dafny

A model of the file-sharing backend in `drive/`: users upload files, collect
them into groups, grant other users read or change access to single files, and
share files with other users. The model covers:

- the two object permission rules;
- the four tables with their uniqueness and cascade rules;
- the serializers' validation and filtering;
- every request handler.

It proves the security statements the code supports.

Modules:

- `Wrappers` holds the `Option` and `Result` types.
- `Models` holds the rows, as `User`, `File`, `Group`, `Permission`, `Sharing` and the token
  table, gathered in one `Db` snapshot of maps keyed by primary key. `Consistent`
  states what the schema guarantees:
  - every foreign key resolves;
  - names fit their 255-character columns;
  - usernames are unique;
  - at most one Permission row exists per (file, user).

  `DeleteFileCascade` and `DeleteUserCascade` say what `on_delete=CASCADE` leaves
  behind. Lemmas show that no reference to the deleted row survives, and that
  every insert and delete keeps `Consistent`. The `__str__` renderings are here too.
- `Permissions` holds `IsOwnerOrReadOnly` and `IsOwnerOrCheckPermission` as pure
  predicates over the method, the requester, the owner and the Permission table.
  They are proved against a per-grant reference table, shown to be monotone in
  the grants, and shown never to read a Sharing row.
- `Serializers` holds the field rules of `FileSerializer`, `GroupSerializer`,
  `UserSerializer` and `SharingUserSerializer`. This covers the group-create
  owner filter and the representations returned to clients. Every text field
  is a framework CharField, which strips surrounding whitespace (`Trim`, after
  Python's `str.strip()`) and refuses text that is then empty or holds a NUL
  character. The length limits apply to the trimmed value, and the trimmed
  value is what gets stored.
- `Store` holds the class `Drive`, which stands for the database. Its fields are the
  current `Db` and the id sequences. Each method is one ORM write:
  - `create_user`;
  - `get_or_create` of a token;
  - `save` of a file or a group;
  - `delete`, with its cascade;
  - a Permission insert that refuses a second row for the same pair;
  - `bulk_create` of Sharing rows.

  Each method keeps `Valid()` and states its whole new state.
- `Views` holds one method per handler of `drive/views.py`. The framework's fixed
  order is written out as branches:
  1. an anonymous requester gets 401;
  2. an unknown id gets 404, before any permission check;
  3. a refused object permission gets 403;
  4. invalid input gets 400;
  5. otherwise the handler writes and answers 200, 201 or 204.

  Every refusal leaves the store unchanged.
- `Scenarios` proves, as postconditions over a fresh store, the outcomes the
  cases of `drive/tests.py` expect. It adds a few cases those do not cover: a
  share does not open the file to its recipient, an unknown id is skipped, and a
  recipient cannot re-share.

The requester is passed in already resolved, either as an existing account or as
`None` for an anonymous request. New token keys are passed in as parameters.

Four behaviours of the code are worth knowing:

- **A Sharing row gives no access.** One might expect a share to open the file
  to its recipient. In the code, no access rule reads the Sharing table and no
  handler writes Permission rows. `SharingsConferNoAccess` and
  `Scenarios.ShareDoesNotOpenFile` prove that the recipient of a share is
  still refused with 403.
- **Only the owner can share.** The share handler checks its object permission
  with POST. No grant allows POST, so only the owner can share a file.
- **Group updates skip the owner filter.** Group creation keeps only the
  requester's own files. The PUT handler saves the submitted file list as it is,
  so a group may come to hold files of other users. For this reason the model
  does not claim that a group's files belong to its owner.
- **Registration trims passwords; login does not.** The two password fields of
  `UserSerializer` are plain CharFields, so registration stores the password
  without its surrounding whitespace. The login serializer's password field
  keeps whitespace. An account registered with " pw" therefore signs in with
  "pw" and is refused with " pw"; `Scenarios.PaddedPasswordTrimmedAtRegistration`
  proves this.

## Model

| member | source | states |
|---|---|---|
| Permissions.IsOwnerOrReadOnly | drive/permissions.py:6-10 | safe methods (GET, HEAD, OPTIONS) are always allowed; any other method is allowed exactly when the requester owns the object |
| Permissions.IsOwnerOrCheckPermission | drive/permissions.py:13-32 | the owner is allowed every method; for a non-owner, a safe method is allowed exactly when a read or change grant exists, PUT exactly when a change grant exists, and every other method is refused |
| Permissions.CheckPermissionMatchesGrantTable | drive/permissions.py:13-32 | when grants are unique per (file, user), the rule agrees with the per-grant table: owner any method, read grant only safe methods, change grant safe methods and PUT, no grant nothing |
| Permissions.NoGrantNoAccess | drive/permissions.py:17-32 | a non-owner without any grant on the file is refused every method |
| Permissions.ReadGrantNeverAllowsPut | drive/permissions.py:26-32 | a non-owner whose only grants are read grants is refused PUT |
| Permissions.OnlyOwnerMayDelete | drive/permissions.py:13-32 | a DELETE passes the rule only for the owner, whatever grants exist |
| Permissions.HasGrantMatchesGrantOf | drive/permissions.py:19-23 | with at most one grant per (file, user), the `exists()` query over a set of kinds holds exactly when the pair's one grant has one of those kinds |
| Permissions.GrantsOnlyWiden | drive/permissions.py:17-32 | adding Permission rows never turns an allowed request into a refused one |
| Models.ParseKind | drive/models.py:32-40 | the `choices` validator accepts exactly "read" and "change", and the parsed kind renders back to the same text |
| Models.PermissionStr | drive/models.py:42-43 | the rendering is the file name, then " - ", then the stored kind text |
| Models.PermissionStrUnambiguous | drive/models.py:42-43 | the "<file name> - <kind>" rendering determines both the file name and the kind |
| Models.SharingStr | drive/models.py:61-62 | the rendering starts with the file name, then " shared with ", the recipient, " by " and the grantor, and is 17 characters longer than the three names together |
| Models.DeleteFileCascade | drive/models.py:25-53 | deleting a file removes it, its group join rows, and exactly the Permission and Sharing rows that name it; every other row stays |
| Models.DeleteFileLeavesNoReference | drive/models.py:53-59 | after a file deletion, no group, grant or sharing row refers to the deleted file |
| Models.DeleteFileKeepsConsistent | drive/models.py:13-59 | a file deletion keeps every foreign key resolvable and the grant uniqueness intact |
| Models.DeleteUserCascade | drive/models.py:16-58 | deleting a user removes the user, their files and groups, their token, and exactly the grants and sharings that name them or one of their files; their files also leave other users' groups |
| Models.DeleteUserLeavesNoReference | drive/models.py:16-58 | after a user deletion, no file, group, grant, sharing or token refers to the user, and no row refers to a file that cascaded with them |
| Models.DeleteUserKeepsConsistent | drive/models.py:16-58 | a user deletion with its whole cascade leaves a consistent store |
| Models.AddGrantKeepsConsistent | drive/models.py:45-49 | inserting a grant for a (file, user) pair that holds none keeps at most one grant per pair |
| Models.DuplicateSharingsAllowed | drive/models.py:52-59 | two Sharing rows with the same file, recipient and grantor still form a consistent store, because the table has no unique constraint |
| Models.AddSharingsKeepsConsistent | drive/models.py:52-59 | Sharing rows whose three references resolve can be added to a consistent store |
| Models.PutFileKeepsConsistent | drive/models.py:13-16 | a file row with an existing owner and a name within 255 characters can be stored without breaking consistency |
| Models.PutGroupKeepsConsistent | drive/models.py:22-25 | a group row with an existing owner, existing files and a name within 255 characters can be stored without breaking consistency |
| Models.RemoveGroupKeepsConsistent | drive/models.py:22-25 | removing a group, and with it its join rows, keeps the store consistent and leaves the files in place |
| Models.AddUserKeepsConsistent | drive/serializers.py:46-52 | an account with an unused username can be added without breaking consistency |
| Models.AddTokenKeepsConsistent | drive/views.py:150 | a token for an existing account can be added without breaking consistency |
| Serializers.Trim | drive/serializers.py:37-39 | CharField's whitespace stripping: the result is empty exactly when the text is all whitespace, and otherwise starts and ends with a non-whitespace character |
| Serializers.TrimKeepsUnpadded | drive/serializers.py:37-39 | text with no whitespace at either end is kept as it is |
| Serializers.TrimIdempotent | drive/serializers.py:37-39 | stripping twice gives the same text as stripping once |
| Serializers.TrimIgnoresPadding | drive/serializers.py:37-39 | whitespace added before or after a text does not change what it strips to |
| Serializers.ValidateFile | drive/serializers.py:7-11 | a file body is accepted exactly when a supplied name, once trimmed, is non-empty, free of NUL characters and at most 255 characters and, on create, both name and file are present; only the trimmed name and the file are taken |
| Serializers.ValidateFileTrimsName | drive/serializers.py:7-11 | a name of whitespace only is refused, and whitespace around a name changes neither the verdict nor the stored name |
| Serializers.FileRepresentation | drive/serializers.py:7-11 | the client sees the file's id, name and content reference |
| Serializers.FileRepresentationHidesOwner | drive/serializers.py:10 | the owner is not among the fields shown: files that differ only in owner look the same |
| Serializers.ValidateFileIgnoresIdAndOwner | drive/serializers.py:10-11 | whatever id and owner the client sends, validation gives the same result |
| Serializers.ApplyFileChanges | drive/serializers.py:7-11 | a save replaces the supplied fields only, and the owner never changes |
| Serializers.ValidateGroup | drive/serializers.py:27-33 | a group body is accepted exactly when a supplied name is valid once trimmed and a supplied file list is non-empty with every id an existing file; on create both are required; the trimmed name is taken |
| Serializers.KeepOwned | drive/serializers.py:20-25 | the kept files are exactly the requested files that the requester owns; none is added |
| Serializers.GroupRepresentation | drive/serializers.py:15-18 | a group is shown with its id, its name and exactly the files currently joined to it |
| Serializers.Validate | drive/serializers.py:41-44 | registration data is rejected, with "Passwords must match", exactly when the two passwords differ; otherwise it passes unchanged |
| Serializers.CleanRegistration | drive/serializers.py:36-39 | registration fields pass exactly when every trimmed field is filled and free of NUL characters, the trimmed username fits 150 characters and is not taken; the cleaned data holds the trimmed fields |
| Serializers.TakenUsernameRefused | drive/serializers.py:54-56 | a username that trims to one already taken is refused |
| Serializers.RegistrationKeepsUsernamesUnique | drive/serializers.py:46-56 | adding the account built from accepted data keeps usernames unique |
| Serializers.NewUser | drive/serializers.py:46-52 | the new account has the cleaned username and email, and the cleaned password1 as its password |
| Serializers.ParseUserIds | drive/serializers.py:69-70 | the share body is accepted exactly when `user_ids` is present and every element is an integer; the ids keep their order |
| Store.Appended | drive/views.py:87 | a bulk insert adds one row per element at consecutive new ids from the sequence's next value, and keeps every existing row |
| Store.InsertRows | drive/views.py:87 | the insert loop builds exactly the appended table |
| Store.Drive.constructor | drive/models.py:13-62 | a new store is empty and consistent |
| Store.Drive.CreateUser | drive/serializers.py:47-51 | adds the account under a fresh id and changes nothing else |
| Store.Drive.GetOrCreateToken | drive/views.py:150 | returns the account's existing token and writes nothing, or stores the fresh key as its only token |
| Store.Drive.InsertFile | drive/views.py:32 | adds the file under a fresh id |
| Store.Drive.SaveFile | drive/views.py:56 | overwrites one file row and nothing else |
| Store.Drive.DeleteFile | drive/views.py:63 | the store becomes the file cascade of the previous store |
| Store.Drive.InsertGroup | drive/views.py:107 | adds the group with its join rows under a fresh id |
| Store.Drive.SaveGroup | drive/views.py:131 | overwrites one group row and its join rows |
| Store.Drive.DeleteGroup | drive/views.py:138 | removes one group; its files stay |
| Store.Drive.InsertPermission | drive/models.py:45-49 | a second grant for a (file, user) pair is refused and nothing is written; otherwise the grant is added under a fresh id |
| Store.Drive.BulkCreateSharings | drive/views.py:87 | the Sharing table becomes the appended table and the sequence advances by the number of rows |
| Store.Drive.DeleteUser | drive/models.py:16-58 | the store becomes the user cascade of the previous store |
| Views.FileGate | drive/views.py:43-46 | 401 for an anonymous request, then 404 for an unknown file, then 403 when the file rule refuses; the handler goes on exactly when all three pass |
| Views.GroupGate | drive/views.py:118-121 | the same order for groups, with the owner-or-read-only rule |
| Views.SharingsConferNoAccess | drive/permissions.py:13-32 | replacing the Sharing table changes no file access decision |
| Views.Recipients | drive/views.py:80 | the recipients are exactly the ids in the request that name an existing account, each once |
| Views.ShareAddsOneRowPerRecipient | drive/views.py:80-87 | a share keeps the old rows and adds exactly one row per distinct existing user in `user_ids`, each for this file and by the requester; unknown ids add nothing |
| Views.RepeatedShareDuplicates | drive/views.py:82-87 | the same share made twice leaves two distinct rows for each recipient |
| Views.ListFiles | drive/views.py:24-27 | an anonymous request gets 401; otherwise the list holds exactly the requester's own files, never files only shared or granted |
| Views.UploadFile | drive/views.py:29-33 | a valid body creates a file owned by the requester, under the trimmed name, and gets 201, advancing only the file sequence; an invalid one gets 400 and stores nothing |
| Views.RetrieveFile | drive/views.py:43-48 | answers as the gate says; a 200 happens only for the owner or a holder of a read or change grant |
| Views.UpdateFile | drive/views.py:50-57 | gate, then validation; a 200 changes only the supplied name and file of that row, keeps its owner, and happens only for the owner or a holder of a change grant |
| Views.DestroyFile | drive/views.py:59-64 | gate; a 204 happens only for the owner and applies the file cascade; every refusal leaves the store unchanged |
| Views.ShareFile | drive/views.py:74-90 | gate with POST, so only the owner passes; a body that is not a list of integers gets 400; a 201 changes only the Sharing table and the sequence, adding the appended recipient rows |
| Views.ListGroups | drive/views.py:97-100 | 401 for an anonymous request; otherwise exactly the requester's own groups with their files |
| Views.CreateGroup | drive/views.py:102-108 | a valid body creates a group owned by the requester, under the trimmed name, that holds exactly the requested files the requester owns, and gets 201, advancing only the group sequence; anything else stores nothing |
| Views.RetrieveGroup | drive/views.py:118-123 | any signed-in user reads any existing group; unknown ids get 404 |
| Views.UpdateGroup | drive/views.py:125-132 | only the owner passes the gate; the supplied name and file list replace the stored ones, with no owner filter |
| Views.DestroyGroup | drive/views.py:134-139 | only the owner passes the gate; a 204 removes the group and keeps its files |
| Views.Register | drive/views.py:146-151 | 400 exactly when a field check fails or the cleaned passwords differ, with nothing written; otherwise a new account built from the cleaned data, its fresh token, and 201 with that key; only the user sequence advances |
| Views.CredentialsIdentifyOneAccount | drive/views.py:153-158 | with unique usernames, a username and password identify at most one account |
| Views.Login | drive/views.py:153-162 | 200 exactly when the trimmed username and the untrimmed password are filled and match an account; the answer is that account's existing token, or a new one stored for it; otherwise 400 with nothing written; no sequence advances |
| Scenarios.UploadThenList | drive/tests.py:19-24 | for any name a CharField keeps as sent (such as "test_file"), an upload by a signed-in user gets 201 and then shows up alone in their list under that name; an anonymous list gets 401 |
| Scenarios.RetrieveUpdateDelete | drive/tests.py:36-55 | the owner reads a file (200, the file's own id returned), renames it to any name a CharField keeps as sent, such as "updated_file_name" (200, that name returned), deletes it (204), and a later read gets 404 |
| Scenarios.ShareDoesNotOpenFile | drive/tests.py:70-75 | the owner's share gets 201, yet the recipient's read still gets 403 while the owner's gets 200 |
| Scenarios.UnknownIdSkipped | drive/views.py:80-87 | a share naming one existing and one unknown id gets 201 and stores a single row |
| Scenarios.RecipientCannotReshare | drive/views.py:74-77 | after a share, the recipient's own share of the file gets 403 |
| Scenarios.RegisterThenLogin | drive/views.py:146-162 | for any credentials a CharField keeps as sent, with an ASCII username (which normalization leaves unchanged), registration answers 201 with the new key; a later login with the same credentials returns that same key, and a wrong password gets 400 |
| Scenarios.PaddedPasswordsCleaned | drive/serializers.py:37-39 | registration data whose passwords carry a leading space is cleaned to the unpadded passwords |
| Scenarios.PaddedPasswordTrimmedAtRegistration | drive/views.py:146-162 | for an ASCII username, an account registered with a space-padded password gets 201, then login with the padded password gets 400 and with the unpadded one 200 |
| Scenarios.TestFileNameClean | drive/tests.py:22 | the upload test's name "test_file" is kept as sent, so UploadThenList applies to it |
| Scenarios.TestNewNameClean | drive/tests.py:45 | the update test's name "updated_file_name" is kept as sent, so RetrieveUpdateDelete applies to it |
| Scenarios.TestUsernameClean | drive/tests.py:15 | the tests' username "test_user" is kept as sent |
| Scenarios.TestPasswordClean | drive/tests.py:15 | the tests' password "test_password" is kept as sent |
| Scenarios.TestUsernameAscii | drive/tests.py:15 | the tests' username is ASCII, so RegisterThenLogin applies to these credentials |

## Left out

- Authentication: the `IsAuthenticated` check and the token middleware. The requester arrives already resolved; an anonymous request is `None` and gets 401.
- Timestamps (`created_at`, `updated_at`): they depend on the clock.
- File storage: `FileField` content is an opaque reference number. Multipart parsing and storage are framework code.
- Password hashing inside `create_user`: a password is stored and compared as given.
- Token key generation: the random key is a parameter, `freshKey`.
- Response rendering: handlers return the status and the serialized value only. Error payloads and the share handler's message text are not modelled.
- `drive/urls.py` and `drive/admin.py`: routing and admin registration only. `SharingSerializer` is used by no handler, so it is not part of this model.
- Transactions, partial failure of `bulk_create`, and concurrent requests: the code has no logic for them.
- Views.Register, Serializers.CleanRegistration: the username character rules (Unicode word characters and @ . + -) and the email format check are not modelled. Presence, trimming, the NUL rule, the 150-character limit and username uniqueness are.
- Serializers.NewUser: `create_user` normalizes the username with Unicode NFKC and lower-cases the domain of the email before saving. The model stores the cleaned text unchanged, so it agrees with the code only where normalization changes nothing, as on ASCII usernames and lower-case domains.
- Views.Register: the uniqueness check compares the text before normalization. A username such as "ｕｓｅｒ" (full-width letters) passes it while "user" is taken, and the code then fails on the unique column with a 500. The model answers 201 and stores a second account. Unicode normalization is not modelled.
- Serializers.RegistrationKeepsUsernamesUnique: proved for the model's unnormalized usernames. In the code it holds only where NFKC leaves the username unchanged, as on ASCII text.
- Login: the authentication backend's refusal of inactive accounts is not modelled, because accounts carry no active flag here.
- ParseUserIds: the integer field's coercion of numeric strings such as "5" is not modelled. Only JSON integers are accepted, so such a body is refused here and accepted by the code.
- Recipients: the database returns `User.objects.filter(id__in=...)` in an unspecified order. The model fixes the order of first mention. The set of rows written does not depend on that order.
- Rows written without model validation: the `choices` of Permission.permission are checked only by model validation, not by `save()` or the database. A Permission row holding some other string of up to 10 characters is therefore possible, but the model's kind type has only the two choices. Such a row would match neither grant query, yet it would still take the (file, user) pair under `unique_together`.
- `File.__str__` and `Group.__str__`: they return the name unchanged, and no handler uses them.
- Token keys: the token table's key is its primary key, and the random generator is trusted to give an unused key. `Consistent` does not state that keys are distinct.
- Store.Drive.DeleteUser: no handler deletes accounts. The operation is modelled only for the cascade rules of the schema.
