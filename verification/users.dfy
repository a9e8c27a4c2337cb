/** Registration (src/controllers/user.controller.js, with the schema of src/models/user.model.js):
    the order of the checks (blank field, email, duplicate account, avatar, upload, create) and
    the record it creates. Uploads and password hashing are parameters. */
module Users {
  import opened Base
  import opened Seqs
  import opened Text
  import opened Ids
  import opened Store
  import opened Auth

  /** The four body fields; each may be absent. */
  datatype RegisterForm = RegisterForm(username: Option<string>, fullname: Option<string>,
                                       email: Option<string>, password: Option<string>)

  /** `req.files` as multer leaves it: the local path of each field's first file, if any. */
  datatype RegisterFiles = RegisterFiles(avatar: Option<string>, coverImage: Option<string>)

  /** `field?.trim() === ""`: true only for a present, whitespace-only field. */
  predicate PresentButBlank(field: Option<string>) {
    field.Some? && Trim(field.value) == ""
  }

  predicate AnyPresentButBlank(f: RegisterForm) {
    PresentButBlank(f.fullname) || PresentButBlank(f.email) || PresentButBlank(f.password) || PresentButBlank(f.username)
  }

  /** A string that neither starts nor ends with white space is its own trim. */
  lemma TrimUntouched(s: string)
    requires s == [] || (!IsSpace(s[0]) && !IsSpace(s[|s| - 1]))
    ensures Trim(s) == s
  {
  }

  /** What the schema's `lowercase` and `trim` options make of a username or an email, both
      when it is stored and when it is a query value. */
  function Normalized(x: string): (r: string)
    ensures Lower(r) == r && Trim(r) == r
    ensures |r| == |Trim(x)| <= |x|
  {
    var t := Trim(x);
    var r := Lower(t);
    LowerIdempotent(t);
    assert r == [] || (!IsSpace(r[0]) && !IsSpace(r[|r| - 1]));
    TrimUntouched(r);
    r
  }

  /** `User.findOne({$or: [{email}, {username}]})` found someone. An absent username matches no
      stored user. */
  predicate AccountTaken(users: seq<User>, f: RegisterForm)
    requires f.email.Some?
  {
    exists j :: 0 <= j < |users| &&
      (users[j].email == Normalized(f.email.value) || (f.username.Some? && users[j].username == Normalized(f.username.value)))
  }

  /** The document `User.create` stores for a form that passed every check. */
  function NewUser(id: Id, f: RegisterForm, avatar: Upload, cover: Option<Upload>, hash: string -> string): User
    requires f.username.Some? && f.fullname.Some? && f.email.Some? && f.password.Some?
  {
    User(id, Normalized(f.username.value), Normalized(f.email.value), Trim(f.fullname.value),
         avatar.url, if cover.Some? then cover.value.url else "", [], hash(f.password.value), None)
  }

  /** The checks before `User.create`, in the handler's order. None when all pass. */
  function Precheck(users: seq<User>, f: RegisterForm, files: Option<RegisterFiles>,
                    avatarUpload: Option<Upload>): (r: Option<Status>)
    ensures AnyPresentButBlank(f) ==> r == Some(Status(400))
    ensures !AnyPresentButBlank(f) && f.email.None? ==> r == Some(Unspecified)
    ensures !AnyPresentButBlank(f) && f.email.Some? && '@' !in f.email.value ==> r == Some(Status(400))
    ensures (!AnyPresentButBlank(f) && f.email.Some? && '@' in f.email.value && AccountTaken(users, f)) ==> r == Some(Status(409))
    ensures r.None? ==> f.email.Some? && '@' in f.email.value && !AccountTaken(users, f)
    ensures r.None? ==> files.Some? && files.value.avatar.Some? && avatarUpload.Some?
  {
    if AnyPresentButBlank(f) then Some(Status(400))
    else if f.email.None? then Some(Unspecified)
    else if '@' !in f.email.value then Some(Status(400))
    else if AccountTaken(users, f) then Some(Status(409))
    // `req.files?.avatar[0]` throws when `req.files` exists without an avatar
    else if files.Some? && files.value.avatar.None? then Some(Unspecified)
    else if files.None? then Some(Status(400))
    else if avatarUpload.None? then Some(Status(500))
    else None
  }

  /** Whether the create itself fails: `username.toLowerCase()` on an absent username throws,
      and the schema requires fullname, password and a non-empty avatar url. */
  predicate CreateFails(f: RegisterForm, avatar: Upload) {
    f.username.None? || f.fullname.None? || f.password.None? || avatar.url == ""
  }

  /** The cover image upload counts only when a cover file was sent. */
  function CoverOf(files: Option<RegisterFiles>, coverUpload: Option<Upload>): Option<Upload> {
    if files.Some? && files.value.coverImage.Some? then coverUpload else None
  }

  /** registerUser with the password hook as evidently intended: the stored password is the
      hash of the given one. `newId` is the id the driver generates. */
  function RegisterUser(s: Store, f: RegisterForm, files: Option<RegisterFiles>, avatarUpload: Option<Upload>,
                        coverUpload: Option<Upload>, hash: string -> string, newId: Id): (h: Handled<PublicUser>)
    ensures h.out.Err? ==> h.store == s
    ensures AnyPresentButBlank(f) ==> h.out == Err(Status(400))
    ensures !AnyPresentButBlank(f) && f.email.None? ==> h.out == Err(Unspecified)
    ensures !AnyPresentButBlank(f) && f.email.Some? && '@' !in f.email.value ==> h.out == Err(Status(400))
    ensures (!AnyPresentButBlank(f) && f.email.Some? && '@' in f.email.value && AccountTaken(s.users, f)) ==> h.out == Err(Status(409))
    ensures (!AnyPresentButBlank(f) && f.email.Some? && '@' in f.email.value && !AccountTaken(s.users, f) && files.None?) ==>
      h.out == Err(Status(400))
    ensures (!AnyPresentButBlank(f) && f.email.Some? && '@' in f.email.value && !AccountTaken(s.users, f)
      && files.Some? && files.value.avatar.None?) ==> h.out == Err(Unspecified)
    ensures (!AnyPresentButBlank(f) && f.email.Some? && '@' in f.email.value && !AccountTaken(s.users, f)
      && files.Some? && files.value.avatar.Some? && avatarUpload.None?) ==> h.out == Err(Status(500))
    ensures h.out.Ok? <==>
      Precheck(s.users, f, files, avatarUpload).None? && !CreateFails(f, avatarUpload.value)
      && Count(s.users, UserWithId(newId)) == 0
    ensures h.out.Ok? ==>
      && h.out.code == 201
      && f.username.Some? && f.fullname.Some? && f.email.Some? && f.password.Some? && avatarUpload.Some?
      && '@' in f.email.value && !AccountTaken(s.users, f)
      && h.store == s.(users := s.users + [NewUser(newId, f, avatarUpload.value, CoverOf(files, coverUpload), hash)])
      && h.out.data == Public(NewUser(newId, f, avatarUpload.value, CoverOf(files, coverUpload), hash))
    ensures h.out.Ok? ==> h.out.data.username == Lower(h.out.data.username) && h.out.data.avatar != ""
    ensures h.out.Ok? && CoverOf(files, coverUpload).None? ==> h.out.data.coverImage == ""
  {
    match Precheck(s.users, f, files, avatarUpload)
    case Some(status) => Reject(s, status)
    case None =>
      if CreateFails(f, avatarUpload.value) then Reject(s, Unspecified)
      else if FirstIndex(s.users, UserWithId(newId)).Some? then Reject(s, Unspecified)
      else
        var u := NewUser(newId, f, avatarUpload.value, CoverOf(files, coverUpload), hash);
        LowerIdempotent(Trim(f.username.value));
        Handled(s.(users := s.users + [u]), Ok(201, Public(u)))
  }

  /** registerUser as the repository has it: the schema's pre-save hook calls `bcrypt`, which
      user.model.js never imports, so every `User.create` throws once the checks have passed. */
  function RegisterUserAsWritten(s: Store, f: RegisterForm, files: Option<RegisterFiles>, avatarUpload: Option<Upload>,
                                 coverUpload: Option<Upload>, newId: Id): (h: Handled<PublicUser>)
    ensures h.store == s && h.out.Err?
  {
    match Precheck(s.users, f, files, avatarUpload)
    case Some(status) => Reject(s, status)
    case None => Reject(s, Unspecified)
  }

  /** The repository's registration can never succeed, although every check before the create
      can pass; the intended registration does succeed on the same request. */
  lemma RegistrationNeverSucceedsAsWritten(s: Store, f: RegisterForm, files: Option<RegisterFiles>, avatarUpload: Option<Upload>,
                                           coverUpload: Option<Upload>, hash: string -> string, newId: Id)
    requires RegisterUser(s, f, files, avatarUpload, coverUpload, hash, newId).out.Ok?
    ensures RegisterUserAsWritten(s, f, files, avatarUpload, coverUpload, newId) == Reject(s, Unspecified)
  {
  }

  /** The as-written and intended handlers agree on every request the checks refuse. */
  lemma RegistrationAgreesOnRefusals(s: Store, f: RegisterForm, files: Option<RegisterFiles>, avatarUpload: Option<Upload>,
                                     coverUpload: Option<Upload>, hash: string -> string, newId: Id)
    requires Precheck(s.users, f, files, avatarUpload).Some?
    ensures RegisterUserAsWritten(s, f, files, avatarUpload, coverUpload, newId)
         == RegisterUser(s, f, files, avatarUpload, coverUpload, hash, newId)
  {
  }

  /** No two accounts share a (normalized) email or username. */
  ghost predicate DistinctAccounts(users: seq<User>) {
    forall i, j :: 0 <= i < j < |users| ==> users[i].email != users[j].email && users[i].username != users[j].username
  }

  /** A successful registration keeps emails and usernames distinct. */
  lemma {:induction false} RegisterKeepsAccountsDistinct(s: Store, f: RegisterForm, files: Option<RegisterFiles>,
                                                         avatarUpload: Option<Upload>, coverUpload: Option<Upload>,
                                                         hash: string -> string, newId: Id)
    requires DistinctAccounts(s.users)
    ensures DistinctAccounts(RegisterUser(s, f, files, avatarUpload, coverUpload, hash, newId).store.users)
  {
    var h := RegisterUser(s, f, files, avatarUpload, coverUpload, hash, newId);
    if h.out.Ok? {
      var u := NewUser(newId, f, avatarUpload.value, CoverOf(files, coverUpload), hash);
      assert h.store.users == s.users + [u];
      assert forall j :: 0 <= j < |s.users| ==> s.users[j].email != u.email && s.users[j].username != u.username;
      AppendKeepsDistinct(s.users, u);
    }
  }

  lemma AppendKeepsDistinct(users: seq<User>, u: User)
    requires DistinctAccounts(users)
    requires forall j :: 0 <= j < |users| ==> users[j].email != u.email && users[j].username != u.username
    ensures DistinctAccounts(users + [u])
  {
    var us := users + [u];
    forall i, j | 0 <= i < j < |us| ensures us[i].email != us[j].email && us[i].username != us[j].username {
      assert us[i] == users[i];
      if j < |users| {
        assert us[j] == users[j];
      }
    }
  }

  /** Registering the same form again, once the first registration succeeded, is refused
      with 409. */
  lemma {:induction false} RegisterTwiceConflicts(s: Store, f: RegisterForm, files: Option<RegisterFiles>,
                                                  avatarUpload: Option<Upload>, coverUpload: Option<Upload>,
                                                  hash: string -> string, newId: Id, newId2: Id)
    requires RegisterUser(s, f, files, avatarUpload, coverUpload, hash, newId).out.Ok?
    ensures var s1 := RegisterUser(s, f, files, avatarUpload, coverUpload, hash, newId).store;
      RegisterUser(s1, f, files, avatarUpload, coverUpload, hash, newId2) == Fail(s1, 409)
  {
    var s1 := RegisterUser(s, f, files, avatarUpload, coverUpload, hash, newId).store;
    var n := |s.users|;
    assert s1.users[n].email == Normalized(f.email.value);
    assert AccountTaken(s1.users, f);
  }
}
