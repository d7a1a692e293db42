/** The session controller and the authentication middleware of the backend:
    the users table, the stored refresh tokens, login, register, logout, the
    current-user endpoint, and the access/refresh decision that runs before
    every protected route. Signing, verifying and hashing are cryptography
    and enter as function parameters; the validator's messages enter as a
    list. */
module Auth {
  import opened Common

  /** The claims a token carries: both generators sign exactly the email and
      the role. */
  datatype Payload = Payload(email: string, role: string)

  /** A `users` row; `password` holds the hash. The role is whatever string
      the registering request supplied. */
  datatype User = User(id: int, email: string, password: string, fullName: string, role: string)

  /** A `refresh_tokens` row. */
  datatype TokenRow = TokenRow(id: int, token: string, userId: int)

  /** What a successful login reports about the user. */
  datatype UserInfo = UserInfo(id: int, email: string, name: string, role: string)

  /** What a successful login hands back: the user's details and the values
      of the two cookies it sets. */
  datatype Session = Session(user: UserInfo, accessToken: string, refreshToken: string)

  /** A controller's answer: 422 with the first validator message, one of the
      backend's exceptions, or success. */
  datatype Reply<T> = Unprocessable(message: string) | Failed(error: HttpError) | Done(value: T)

  /** A cookie counts only when present and non-empty (JavaScript truthiness). */
  predicate Present(cookie: Option<string>) {
    cookie.Some? && cookie.value != ""
  }

  predicate HasEmail(users: seq<User>, email: string) {
    exists i :: 0 <= i < |users| && users[i].email == email
  }

  /** Ids ascend below the next one, and no email is registered twice. */
  predicate UsersWellFormed(users: seq<User>, nextId: int) {
    && (forall i, j :: 0 <= i < j < |users| ==> users[i].id < users[j].id)
    && (forall i :: 0 <= i < |users| ==> 1 <= users[i].id < nextId)
    && (forall i, j :: 0 <= i < j < |users| ==> users[i].email != users[j].email)
  }

  /** `findOne({ where: { email } })`: the first user with that email. */
  function FindByEmail(users: seq<User>, email: string): (r: Option<nat>)
    ensures r.None? <==> !HasEmail(users, email)
    ensures r.Some? ==> r.value < |users| && users[r.value].email == email
    ensures r.Some? ==> forall j :: 0 <= j < r.value ==> users[j].email != email
  {
    if |users| == 0 then None
    else if users[0].email == email then Some(0)
    else
      match FindByEmail(users[1..], email)
      case None =>
        assert forall i :: 1 <= i < |users| ==> users[i] == users[1..][i - 1];
        None
      case Some(k) => Some(k + 1)
  }

  /** With distinct emails the first match is the only one. */
  lemma FindByEmailUnique(users: seq<User>, nextId: int, email: string, i: nat)
    requires UsersWellFormed(users, nextId)
    requires i < |users| && users[i].email == email
    ensures FindByEmail(users, email) == Some(i)
  {
  }

  // ---------------------------------------------------------------- login

  /** `login`: validation first, then the email lookup, then the password
      comparison; on success both tokens are signed over the stored user's
      email and role. `hash` stands for bcrypt: a password matches a stored
      hash when hashing it gives that hash. */
  function LoginReply(users: seq<User>, errors: seq<string>, email: string, password: string,
                      hash: string -> string, signAccess: Payload -> string,
                      signRefresh: Payload -> string): (r: Reply<Session>)
    ensures |errors| > 0 ==> r == Unprocessable(errors[0])
    ensures errors == [] && !HasEmail(users, email) ==> r == Failed(NotFound("user"))
    ensures errors == [] && HasEmail(users, email) ==> r.Done? || r == Failed(WrongCredentials)
    ensures r.Done? ==>
      exists i :: && 0 <= i < |users| && users[i].email == email
                  && users[i].password == hash(password)
                  && r.value == Session(UserInfo(users[i].id, email, users[i].fullName, users[i].role),
                                        signAccess(Payload(email, users[i].role)),
                                        signRefresh(Payload(email, users[i].role)))
  {
    if |errors| > 0 then Unprocessable(errors[0])
    else
      match FindByEmail(users, email)
      case None => Failed(NotFound("user"))
      case Some(i) =>
        var u := users[i];
        if hash(password) != u.password then Failed(WrongCredentials)
        else
          var claims := Payload(u.email, u.role);
          Done(Session(UserInfo(u.id, u.email, u.fullName, u.role), signAccess(claims), signRefresh(claims)))
  }

  /** With distinct emails, login succeeds exactly for the registered
      email/password pairs. */
  lemma LoginSucceedsIff(users: seq<User>, nextId: int, email: string, password: string,
                         hash: string -> string, signAccess: Payload -> string,
                         signRefresh: Payload -> string)
    requires UsersWellFormed(users, nextId)
    ensures LoginReply(users, [], email, password, hash, signAccess, signRefresh).Done?
        <==> exists i :: 0 <= i < |users| && users[i].email == email && users[i].password == hash(password)
  {
    if i :| 0 <= i < |users| && users[i].email == email && users[i].password == hash(password) {
      FindByEmailUnique(users, nextId, email, i);
    }
  }

  // ------------------------------------------------------------- register

  /** `register`: validation first, then a taken email, and only then the
      password/confirmation mismatch; the new user stores the hash of the
      password and the requested role as given. */
  function RegisterReply(users: seq<User>, nextId: int, errors: seq<string>, email: string,
                         name: string, password: string, confirm: string, role: string,
                         hash: string -> string): (r: Reply<User>)
    ensures |errors| > 0 ==> r == Unprocessable(errors[0])
    ensures errors == [] && HasEmail(users, email) ==> r == Failed(Existed(email))
    ensures errors == [] && !HasEmail(users, email) && password != confirm ==> r == Failed(ConfirmPasswordNotMatch)
    ensures r.Done? <==> errors == [] && !HasEmail(users, email) && password == confirm
    ensures r.Done? ==> r.value == User(nextId, email, hash(password), name, role)
  {
    if |errors| > 0 then Unprocessable(errors[0])
    else if FindByEmail(users, email).Some? then Failed(Existed(email))
    else if password != confirm then Failed(ConfirmPasswordNotMatch)
    else Done(User(nextId, email, hash(password), name, role))
  }

  /** Registering keeps ids ascending and emails distinct. */
  lemma RegisterPreserves(users: seq<User>, nextId: int, errors: seq<string>, email: string,
                          name: string, password: string, confirm: string, role: string,
                          hash: string -> string)
    requires nextId >= 1 && UsersWellFormed(users, nextId)
    ensures var r := RegisterReply(users, nextId, errors, email, name, password, confirm, role, hash);
            r.Done? ==> UsersWellFormed(users + [r.value], nextId + 1)
  {
    var r := RegisterReply(users, nextId, errors, email, name, password, confirm, role, hash);
    if r.Done? {
      var after := users + [r.value];
      forall i, j | 0 <= i < j < |after| ensures after[i].email != after[j].email {
        if j == |users| {
          assert after[i] == users[i];
        }
      }
    }
  }

  /** A registered user can log in with the password they registered, and the
      session carries the email and role they registered with. */
  lemma RegisterThenLogin(users: seq<User>, nextId: int, errors: seq<string>, email: string,
                          name: string, password: string, role: string,
                          hash: string -> string, signAccess: Payload -> string,
                          signRefresh: Payload -> string)
    requires nextId >= 1 && UsersWellFormed(users, nextId)
    requires RegisterReply(users, nextId, errors, email, name, password, password, role, hash).Done?
    ensures var after := users + [User(nextId, email, hash(password), name, role)];
            LoginReply(after, [], email, password, hash, signAccess, signRefresh)
              == Done(Session(UserInfo(nextId, email, name, role),
                              signAccess(Payload(email, role)), signRefresh(Payload(email, role))))
  {
    RegisterPreserves(users, nextId, errors, email, name, password, password, role, hash);
    var after := users + [User(nextId, email, hash(password), name, role)];
    FindByEmailUnique(after, nextId + 1, email, |users|);
  }

  // --------------------------------------------------------------- logout

  /** `delete({ token })`: every stored row carrying that token goes, the
      others stay in order. */
  function Revoke(tokens: seq<TokenRow>, token: string): (r: seq<TokenRow>)
    ensures forall row :: row in r <==> row in tokens && row.token != token
    ensures |r| <= |tokens|
  {
    if |tokens| == 0 then []
    else if tokens[0].token == token then Revoke(tokens[1..], token)
    else [tokens[0]] + Revoke(tokens[1..], token)
  }

  /** Revoking a token that is no longer stored changes nothing. */
  lemma {:induction false} RevokeAbsent(tokens: seq<TokenRow>, token: string)
    requires forall i :: 0 <= i < |tokens| ==> tokens[i].token != token
    ensures Revoke(tokens, token) == tokens
  {
    if |tokens| > 0 {
      RevokeAbsent(tokens[1..], token);
      assert [tokens[0]] + tokens[1..] == tokens;
    }
  }

  /** The token table `logout` leaves: the cookie's token revoked when the
      cookie is there, untouched otherwise. */
  function LogoutTokens(tokens: seq<TokenRow>, cookie: Option<string>): (r: seq<TokenRow>)
    ensures Present(cookie) ==> forall i :: 0 <= i < |r| ==> r[i].token != cookie.value
    ensures forall row :: row in r <==> row in tokens && !(Present(cookie) && row.token == cookie.value)
  {
    if Present(cookie) then Revoke(tokens, cookie.value) else tokens
  }

  /** Logging out twice with the same cookie is logging out once. */
  lemma LogoutIdempotent(tokens: seq<TokenRow>, cookie: Option<string>)
    ensures LogoutTokens(LogoutTokens(tokens, cookie), cookie) == LogoutTokens(tokens, cookie)
  {
    if Present(cookie) {
      RevokeAbsent(Revoke(tokens, cookie.value), cookie.value);
    }
  }

  // --------------------------------------------------------- current user

  /** `getCurrentUser`'s answers. The name comes from the users table, the
      email and the role from the token; a token whose email has no user makes
      the handler dereference a missing row. */
  datatype CurrentReply = Unauthorized | Current(name: string, email: string, role: string) | MissingUser

  function CurrentUser(users: seq<User>, attached: Option<Payload>): (r: CurrentReply)
    ensures r == Unauthorized <==> attached.None?
    ensures r == MissingUser <==> attached.Some? && !HasEmail(users, attached.value.email)
    ensures r.Current? ==> r.email == attached.value.email && r.role == attached.value.role
    ensures r.Current? ==> exists i :: 0 <= i < |users| && users[i].email == r.email && users[i].fullName == r.name
  {
    match attached
    case None => Unauthorized
    case Some(p) =>
      match FindByEmail(users, p.email)
      case None => MissingUser
      case Some(i) => Current(users[i].fullName, p.email, p.role)
  }

  // ----------------------------------------------------------- middleware

  /** What `jwt.verify` does with a token: decode it, report it expired, or
      reject it for any other reason. */
  datatype Verification = Verified(payload: Payload) | Expired | Malformed

  /** The middleware's decision: stop with a status and a message, or call
      the next handler as a user, having issued a fresh access token or not. */
  datatype Gate = Halt(status: int, message: string) | Next(user: Payload, renewed: Option<string>)

  predicate Stored(tokens: seq<TokenRow>, token: string) {
    exists i :: 0 <= i < |tokens| && tokens[i].token == token
  }

  /** `authMiddleware`: a missing access token is a 400 and nothing else is
      consulted; a verifying one proceeds as its payload; any failure but
      expiry is a 401; an expired one proceeds only through a refresh token
      that verifies and is still stored, with a new access token signed over
      the refresh payload. */
  function Authenticate(access: Option<string>, refresh: Option<string>,
                        verifyAccess: string -> Verification, verifyRefresh: string -> Verification,
                        tokens: seq<TokenRow>, signAccess: Payload -> string): (g: Gate)
    ensures !Present(access) ==> g == Halt(400, "Missing access token")
    ensures Present(access) && verifyAccess(access.value).Verified? ==>
              g == Next(verifyAccess(access.value).payload, None)
    ensures Present(access) && verifyAccess(access.value).Malformed? ==> g == Halt(401, "Invalid token")
    ensures g.Halt? ==> g.status == 400 || g == Halt(401, "Invalid token")
    ensures (g.Next? && g.renewed.Some?) <==>
              && Present(access) && verifyAccess(access.value).Expired?
              && Present(refresh) && verifyRefresh(refresh.value).Verified?
              && Stored(tokens, refresh.value)
    ensures g.Next? && g.renewed.Some? ==>
              g.user == verifyRefresh(refresh.value).payload && g.renewed.value == signAccess(g.user)
  {
    if !Present(access) then Halt(400, "Missing access token")
    else
      match verifyAccess(access.value)
      case Verified(p) => Next(p, None)
      case Malformed => Halt(401, "Invalid token")
      case Expired =>
        if !Present(refresh) then Halt(401, "Invalid token")
        else
          match verifyRefresh(refresh.value)
          case Verified(p) =>
            if Stored(tokens, refresh.value) then Next(p, Some(signAccess(p))) else Halt(401, "Invalid token")
          case _ => Halt(401, "Invalid token")
  }

  /** After a login, a client whose access token has expired is renewed
      through the refresh token the login stored, as the logged-in user. */
  lemma LoginThenRenew(tokens: seq<TokenRow>, id: int, s: Session, access: string,
                       verifyAccess: string -> Verification, verifyRefresh: string -> Verification,
                       signAccess: Payload -> string)
    requires access != "" && verifyAccess(access) == Expired
    requires s.refreshToken != ""
    requires verifyRefresh(s.refreshToken) == Verified(Payload(s.user.email, s.user.role))
    ensures var claims := Payload(s.user.email, s.user.role);
            Authenticate(Some(access), Some(s.refreshToken), verifyAccess, verifyRefresh,
                         tokens + [TokenRow(id, s.refreshToken, s.user.id)], signAccess)
              == Next(claims, Some(signAccess(claims)))
  {
    var after := tokens + [TokenRow(id, s.refreshToken, s.user.id)];
    assert after[|tokens|].token == s.refreshToken;
  }

  /** After logout, the refresh token it revoked no longer renews anything,
      however well it verifies. */
  lemma LogoutEndsRenewal(tokens: seq<TokenRow>, cookie: string, access: string,
                          verifyAccess: string -> Verification, verifyRefresh: string -> Verification,
                          signAccess: Payload -> string)
    requires cookie != "" && access != "" && verifyAccess(access) == Expired
    ensures Authenticate(Some(access), Some(cookie), verifyAccess, verifyRefresh,
                         LogoutTokens(tokens, Some(cookie)), signAccess) == Halt(401, "Invalid token")
  {
  }

  // -------------------------------------------------------------- service

  /** The users table and the refresh-token table, with their id counters. */
  class AuthService {
    var users: seq<User>
    var tokens: seq<TokenRow>
    var nextUserId: int
    var nextTokenId: int

    ghost predicate Valid()
      reads this
    {
      && nextUserId >= 1 && UsersWellFormed(users, nextUserId)
      && nextTokenId >= 1
      && (forall i :: 0 <= i < |tokens| ==> 1 <= tokens[i].id < nextTokenId)
    }

    constructor ()
      ensures Valid() && users == [] && tokens == [] && nextUserId == 1 && nextTokenId == 1
    {
      users := [];
      tokens := [];
      nextUserId := 1;
      nextTokenId := 1;
    }

    /** `login`: a success stores exactly one refresh-token row, for the
        user it logged in; a failure stores nothing. */
    method Login(errors: seq<string>, email: string, password: string, hash: string -> string,
                 signAccess: Payload -> string, signRefresh: Payload -> string)
      returns (r: Reply<Session>)
      requires Valid()
      modifies this
      ensures Valid()
      ensures r == LoginReply(old(users), errors, email, password, hash, signAccess, signRefresh)
      ensures users == old(users) && nextUserId == old(nextUserId)
      ensures r.Done? ==> tokens == old(tokens) + [TokenRow(old(nextTokenId), r.value.refreshToken, r.value.user.id)]
                          && nextTokenId == old(nextTokenId) + 1
      ensures !r.Done? ==> tokens == old(tokens) && nextTokenId == old(nextTokenId)
    {
      r := LoginReply(users, errors, email, password, hash, signAccess, signRefresh);
      if r.Done? {
        tokens := tokens + [TokenRow(nextTokenId, r.value.refreshToken, r.value.user.id)];
        nextTokenId := nextTokenId + 1;
      }
    }

    /** `register`: a success adds exactly one user. */
    method Register(errors: seq<string>, email: string, name: string, password: string,
                    confirm: string, role: string, hash: string -> string)
      returns (r: Reply<User>)
      requires Valid()
      modifies this
      ensures Valid()
      ensures r == RegisterReply(old(users), old(nextUserId), errors, email, name, password, confirm, role, hash)
      ensures tokens == old(tokens) && nextTokenId == old(nextTokenId)
      ensures r.Done? ==> users == old(users) + [r.value] && nextUserId == old(nextUserId) + 1
      ensures !r.Done? ==> users == old(users) && nextUserId == old(nextUserId)
    {
      r := RegisterReply(users, nextUserId, errors, email, name, password, confirm, role, hash);
      if r.Done? {
        RegisterPreserves(users, nextUserId, errors, email, name, password, confirm, role, hash);
        users := users + [r.value];
        nextUserId := nextUserId + 1;
      }
    }

    /** `logout`: revokes the cookie's token and always answers 200. */
    method Logout(cookie: Option<string>) returns (status: int)
      requires Valid()
      modifies this
      ensures Valid()
      ensures status == 200
      ensures tokens == LogoutTokens(old(tokens), cookie)
      ensures users == old(users) && nextUserId == old(nextUserId) && nextTokenId == old(nextTokenId)
    {
      if Present(cookie) {
        var kept := Revoke(tokens, cookie.value);
        forall i | 0 <= i < |kept| ensures 1 <= kept[i].id < nextTokenId {
          assert kept[i] in tokens;
        }
        tokens := kept;
      }
      status := 200;
    }

    /** `getCurrentUser` */
    method GetCurrentUser(attached: Option<Payload>) returns (r: CurrentReply)
      ensures r == CurrentUser(users, attached)
    {
      r := CurrentUser(users, attached);
    }

    /** `authMiddleware` against the stored tokens. It has no `modifies`
        clause: the refresh path neither rotates nor deletes a token. */
    method Authorize(access: Option<string>, refresh: Option<string>,
                     verifyAccess: string -> Verification, verifyRefresh: string -> Verification,
                     signAccess: Payload -> string)
      returns (g: Gate)
      ensures g == Authenticate(access, refresh, verifyAccess, verifyRefresh, tokens, signAccess)
    {
      g := Authenticate(access, refresh, verifyAccess, verifyRefresh, tokens, signAccess);
    }
  }
}
