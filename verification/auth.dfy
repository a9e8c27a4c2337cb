/** The authentication gate (src/middleware/auth.middleware.js): extract a bearer token, verify
    it, load the user it names without the secret fields, and hand that user to the handler.
    Every failure, whatever its cause, becomes 401 and the handler does not run. The token
    verifier is a parameter: a partial function from token to payload. */
module Auth {
  import opened Base
  import opened Seqs
  import opened Text
  import opened Ids
  import opened Store

  /** A user as handlers and clients see it: `select("-password -refreshToken")`. */
  datatype PublicUser = PublicUser(
    id: Id,
    username: string,
    email: string,
    fullname: string,
    avatar: string,
    coverImage: string,
    watchHistory: seq<Id>)

  function Public(u: User): (p: PublicUser)
    ensures p.id == u.id && p.username == u.username && p.email == u.email && p.fullname == u.fullname
    ensures p.avatar == u.avatar && p.coverImage == u.coverImage && p.watchHistory == u.watchHistory
  {
    PublicUser(u.id, u.username, u.email, u.fullname, u.avatar, u.coverImage, u.watchHistory)
  }

  /** The decoded token: its `_id` claim, if it has one. */
  datatype Payload = Payload(id: Option<string>)

  /** The gate's verdict: the user to attach, or 401. */
  datatype Gate = Pass(user: PublicUser) | Unauthorized

  const BearerPrefix := "Bearer "

  /** `req.cookies?.accessToken || req.header("Authorization")?.replace("Bearer ", "")`. */
  function ExtractToken(cookie: Option<string>, header: Option<string>): (t: Option<string>)
    ensures Truthy(cookie) ==> t == cookie
    ensures !Truthy(cookie) && header.None? ==> t.None?
    ensures !Truthy(cookie) && header.Some? ==> t.Some? && |t.value| <= |header.value|
  {
    if Truthy(cookie) then cookie
    else match header
      case None => None
      case Some(h) => Some(ReplaceFirst(h, BearerPrefix, ""))
  }

  function UserWithId(id: Id): User -> bool {
    (u: User) => u.id == id
  }

  /** `User.findById(id)`: a malformed id fails the cast (an error, caught like the rest);
      an absent id finds nothing. */
  function FindUser(users: seq<User>, id: Option<string>): (r: Option<User>)
    ensures r.Some? <==> id.Some? && IsValidObjectId(id.value) && exists j :: 0 <= j < |users| && users[j].id == Cast(id.value)
    ensures r.Some? ==> r.value in users && r.value.id == Cast(id.value)
  {
    if id.None? || !IsValidObjectId(id.value) then None
    else match FirstIndex(users, UserWithId(Cast(id.value)))
      case None => None
      case Some(j) => Some(users[j])
  }

  /** verifyJWT: Extract, Verify, Hydrate, Attach. */
  function Authenticate(users: seq<User>, cookie: Option<string>, header: Option<string>,
                        verify: string -> Option<Payload>): (g: Gate)
    ensures !Truthy(ExtractToken(cookie, header)) ==> g == Unauthorized
    ensures Truthy(ExtractToken(cookie, header)) && verify(ExtractToken(cookie, header).value).None? ==> g == Unauthorized
    ensures g.Pass? <==>
      && Truthy(ExtractToken(cookie, header))
      && verify(ExtractToken(cookie, header).value).Some?
      && FindUser(users, verify(ExtractToken(cookie, header).value).value.id).Some?
    ensures g.Pass? ==>
      var id := verify(ExtractToken(cookie, header).value).value.id;
      id.Some? && exists j :: 0 <= j < |users| && g.user == Public(users[j]) && users[j].id == Cast(id.value)
  {
    var token := ExtractToken(cookie, header);
    if !Truthy(token) then Unauthorized
    else match verify(token.value)
      case None => Unauthorized
      case Some(payload) =>
        match FindUser(users, payload.id)
        case None => Unauthorized
        case Some(u) => Pass(Public(u))
  }

  /** A route behind the gate: on 401 the store is untouched and the handler never runs;
      otherwise the handler runs once, with the attached user. */
  function Guarded<T>(s: Store, g: Gate, handler: PublicUser -> Handled<T>): (h: Handled<T>)
    ensures g.Unauthorized? ==> h == Fail(s, 401)
    ensures g.Pass? ==> h == handler(g.user)
  {
    match g
    case Unauthorized => Fail(s, 401)
    case Pass(u) => handler(u)
  }

  /** A non-empty cookie token wins over the header, even one the verifier rejects. */
  lemma CookieTakesPrecedence(users: seq<User>, cookie: string, header: Option<string>, verify: string -> Option<Payload>)
    requires cookie != ""
    ensures ExtractToken(Some(cookie), header) == Some(cookie)
    ensures verify(cookie).None? ==> Authenticate(users, Some(cookie), header, verify) == Unauthorized
  {
  }

  /** "Bearer abc" yields "abc": the scheme prefix is stripped. */
  lemma {:induction false} BearerHeader(cookie: Option<string>, token: string)
    requires !Truthy(cookie)
    ensures ExtractToken(cookie, Some(BearerPrefix + token)) == Some(token)
  {
    ReplaceFirstPrefix(BearerPrefix, token);
  }

  /** The header is not parsed as "scheme SP token": the first occurrence of "Bearer " is cut
      out wherever it is. */
  lemma {:induction false} BearerAnywhere(cookie: Option<string>, before: string, after: string)
    requires !Truthy(cookie)
    requires NoOccurrenceBefore(before + BearerPrefix + after, BearerPrefix, |before|)
    ensures ExtractToken(cookie, Some(before + BearerPrefix + after)) == Some(before + after)
  {
    ReplaceFirstCut(before, BearerPrefix, after);
  }

  /** Without any token the request is refused with 401 and the store is unchanged, whatever the
      handler would have done. */
  lemma NoTokenUnauthorized<T>(s: Store, header: Option<string>, verify: string -> Option<Payload>,
                               handler: PublicUser -> Handled<T>)
    requires header.None? || header.value == "" || header.value == BearerPrefix
    ensures Guarded(s, Authenticate(s.users, None, header, verify), handler) == Fail(s, 401)
  {
    if header.Some? && header.value == BearerPrefix {
      BearerHeader(None, "");
      assert BearerPrefix + "" == BearerPrefix;
    }
  }

  /** A token whose subject is no longer a user is refused. */
  lemma UnknownSubjectUnauthorized(users: seq<User>, cookie: string, verify: string -> Option<Payload>, id: string)
    requires cookie != "" && verify(cookie) == Some(Payload(Some(id)))
    requires forall j :: 0 <= j < |users| ==> users[j].id != Cast(id)
    ensures Authenticate(users, Some(cookie), None, verify) == Unauthorized
  {
  }
}
