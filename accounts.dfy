/** Sign-up, confirmation-code exchange and user management. The user table is a map
    from username to record; mail sending is modelled as appending to `outbox`, and
    may fail (`mailDelivers`), in which case the request fails. The random code of
    a new account is a parameter that no stored record holds yet. */
module Accounts {
  import opened Wrappers
  import opened UserModels
  import opened Permissions
  import Reviews

  /** The username that `/users/me` would shadow. */
  const ReservedName: string := "me"

  /** A "Confirmation code" mail: its one recipient and its body, the code. */
  datatype Mail = Mail(to: string, code: string)

  datatype AccountError =
    | ReservedUsername   // "username can't be 'me'"
    | EmailTaken         // the email belongs to another record
    | UsernameTaken      // the username belongs to a record with another email
    | MailFailed         // sending the mail raised
    | InvalidRole        // not one of the role choices
    | UserNotFound       // 404
    | CodeIncorrect      // 400 "Confirmation code incorrect"
    | NotAuthenticated   // 401

  /** The access token handed out for a confirmed user, bound to that user. */
  datatype Token = Token(username: string)

  /** The body of an admin's user creation; absent fields take the model's defaults. */
  datatype NewUserRequest = NewUserRequest(
    username: string,
    email: string,
    firstName: Option<string>,
    lastName: Option<string>,
    bio: Option<string>,
    role: Option<string>)

  /** The body of `PATCH /users/me`; `role` may be sent but is read-only. */
  datatype ProfilePatch = ProfilePatch(
    username: Option<string>,
    email: Option<string>,
    firstName: Option<string>,
    lastName: Option<string>,
    bio: Option<string>,
    role: Option<string>)

  /** The own record after a profile patch: only the five writable fields can change. */
  function Patched(me: User, p: ProfilePatch): (u: User)
    ensures u.id == me.id && u.role == me.role && u.superuser == me.superuser
    ensures u.confirmationCode == me.confirmationCode
    ensures p.username.None? ==> u.username == me.username
    ensures p.email.None? ==> u.email == me.email
    ensures p.username.Some? ==> u.username == p.username.value
    ensures p.email.Some? ==> u.email == p.email.value
    ensures u.firstName == p.firstName.GetOr(me.firstName)
    ensures u.lastName == p.lastName.GetOr(me.lastName)
    ensures u.bio == p.bio.GetOr(me.bio)
  {
    me.(username := p.username.GetOr(me.username),
        email := p.email.GetOr(me.email),
        firstName := p.firstName.GetOr(me.firstName),
        lastName := p.lastName.GetOr(me.lastName),
        bio := p.bio.GetOr(me.bio))
  }

  /** Filing record `u` in place of `name`, under `u`'s own username, keeps the table's
      constraints when the id stays and the new username and email are not someone else's. */
  lemma RefileKeepsUsersOk(users: map<string, User>, nextId: nat, name: string, u: User)
    requires UsersOk(users, nextId) && name in users && u.id == users[name].id
    requires u.username != name ==> u.username !in users
    requires u.email != users[name].email ==> !EmailInUse(users, u.email)
    ensures UsersOk((users - {name})[u.username := u], nextId)
  {
  }

  class Registry {
    var users: map<string, User>
    var outbox: seq<Mail>
    var nextId: nat

    ghost predicate Valid()
      reads this
    {
      UsersOk(users, nextId)
    }

    constructor ()
      ensures Valid() && users == map[] && outbox == []
    {
      users, outbox, nextId := map[], [], 0;
    }

    /** `POST /auth/token`: the stored code must equal the one sent. Reading only, it
        neither rotates nor spends the code, so the same exchange succeeds again. */
    function ExchangeToken(username: string, code: string): (r: Result<Token, AccountError>)
      reads this
      ensures r.Success? <==> username in users && users[username].confirmationCode == code
      ensures r.Success? ==> r.value == Token(username)
      ensures username !in users ==> r == Failure(UserNotFound)
      ensures username in users && users[username].confirmationCode != code ==> r == Failure(CodeIncorrect)
    {
      if username !in users then Failure(UserNotFound)
      else if users[username].confirmationCode == code then Success(Token(username))
      else Failure(CodeIncorrect)
    }

    /** `POST /auth/signup`. A new username with an unused email gets a record with a
        fresh code, mailed before the record is written; an existing (username, email)
        pair gets its stored code mailed again; everything else is refused. */
    method Signup(username: string, email: string, code: string, mailDelivers: bool)
      returns (r: Result<Option<User>, AccountError>)
      requires Valid() && !CodeInUse(users, code)
      modifies this
      ensures Valid()
      ensures |users| <= |old(users)| + 1
      ensures r.Failure? ==> unchanged(this)
      ensures username !in old(users) && username == ReservedName ==> r == Failure(ReservedUsername)
      ensures username !in old(users) && username != ReservedName && EmailInUse(old(users), email) ==>
        r == Failure(EmailTaken)
      ensures username !in old(users) && username != ReservedName && !EmailInUse(old(users), email) ==>
        if mailDelivers then
          && r == Success(None)
          && users == old(users)[username := NewUser(old(nextId), username, email, NoFields.(code := Some(code)))]
          && outbox == old(outbox) + [Mail(email, code)]
          && nextId == old(nextId) + 1
        else r == Failure(MailFailed)
      ensures username in old(users) && old(users)[username].email == email ==>
        if mailDelivers then
          && r == Success(Some(old(users)[username]))
          && users == old(users) && nextId == old(nextId)
          && outbox == old(outbox) + [Mail(email, old(users)[username].confirmationCode)]
        else r == Failure(MailFailed)
      ensures username in old(users) && old(users)[username].email != email ==> r == Failure(UsernameTaken)
      ensures r.Success? ==> |outbox| > 0 && outbox[|outbox| - 1].to == email
      ensures r.Success? ==> ExchangeToken(username, outbox[|outbox| - 1].code) == Success(Token(username))
    {
      if username !in users {
        if username == ReservedName {
          return Failure(ReservedUsername);
        }
        if EmailInUse(users, email) {
          return Failure(EmailTaken);
        }
        if !mailDelivers {
          return Failure(MailFailed);
        }
        outbox := outbox + [Mail(email, code)];
        var u := NewUser(nextId, username, email, NoFields.(code := Some(code)));
        InsertKeepsUsersOk(users, nextId, u);
        users := users[username := u];
        nextId := nextId + 1;
        r := Success(None);
      } else {
        var u := users[username];
        if u.email == email {
          if !mailDelivers {
            return Failure(MailFailed);
          }
          outbox := outbox + [Mail(u.email, u.confirmationCode)];
          r := Success(Some(u));
        } else {
          r := Failure(UsernameTaken);
        }
      }
    }

    /** `POST /users/` by an admin: username and email must be unused and the role must be a
        choice, checked in the serializer's field order; then the username must not be "me".
        The record gets a freshly generated code. */
    method CreateUser(req: NewUserRequest, code: string) returns (r: Result<User, AccountError>)
      requires Valid() && !CodeInUse(users, code)
      modifies this`users, this`nextId
      ensures Valid()
      ensures r.Failure? ==> users == old(users) && nextId == old(nextId)
      ensures req.username in old(users) ==> r == Failure(UsernameTaken)
      ensures req.username !in old(users) && EmailInUse(old(users), req.email) ==> r == Failure(EmailTaken)
      ensures (req.username !in old(users) && !EmailInUse(old(users), req.email)
               && req.role.Some? && ParseRole(req.role.value).None?) ==> r == Failure(InvalidRole)
      ensures req.username == ReservedName ==> r.Failure?
      ensures r.Success? <==>
        && (req.role.None? || ParseRole(req.role.value).Some?)
        && req.username !in old(users) && !EmailInUse(old(users), req.email)
        && req.username != ReservedName
      ensures r.Success? ==>
        && r.value.username == req.username && r.value.email == req.email
        && r.value.confirmationCode == code && !CodeInUse(old(users), r.value.confirmationCode)
        && r.value.role == (if req.role.Some? then ParseRole(req.role.value).value else Member)
        && users == old(users)[req.username := r.value]
      ensures r.Success? ==>
        && r.value == NewUser(old(nextId), req.username, req.email,
                              UserFields(req.firstName, req.lastName, req.bio,
                                         if req.role.Some? then ParseRole(req.role.value) else None, Some(code)))
        && nextId == old(nextId) + 1
    {
      if req.username in users {
        return Failure(UsernameTaken);
      }
      if EmailInUse(users, req.email) {
        return Failure(EmailTaken);
      }
      var role: Option<Role> := None;
      if req.role.Some? {
        role := ParseRole(req.role.value);
        if role.None? {
          return Failure(InvalidRole);
        }
      }
      if req.username == ReservedName {
        return Failure(ReservedUsername);
      }
      var u := NewUser(nextId, req.username, req.email,
                       UserFields(req.firstName, req.lastName, req.bio, role, Some(code)));
      InsertKeepsUsersOk(users, nextId, u);
      users := users[req.username := u];
      nextId := nextId + 1;
      r := Success(u);
    }

    /** `GET /users/me`: the record filed under the requester's own username. */
    function Myself(who: Requester): (r: Result<User, AccountError>)
      requires Valid()
      reads this
      ensures !who.Authenticated? ==> r == Failure(NotAuthenticated)
      ensures r.Success? ==> who.Authenticated? && r.value.username == who.user.username
      ensures r.Success? ==> who.user.username in users && r.value == users[who.user.username]
      ensures who.Authenticated? && who.user.username in users ==> r.Success?
      ensures who.Authenticated? && who.user.username !in users ==> r == Failure(UserNotFound)
    {
      if !who.Authenticated? then Failure(NotAuthenticated)
      else if who.user.username !in users then Failure(UserNotFound)
      else Success(users[who.user.username])
    }

    /** `PATCH /users/me`: rewrites the requester's own record; the role is read-only and
        the confirmation code is not a field of the form. A username or email already
        held by another record violates the table's unique constraints. */
    method UpdateMyself(who: Requester, patch: ProfilePatch) returns (r: Result<User, AccountError>)
      requires Valid()
      modifies this`users
      ensures Valid()
      ensures r.Failure? ==> users == old(users)
      ensures !who.Authenticated? ==> r == Failure(NotAuthenticated)
      ensures who.Authenticated? && who.user.username !in old(users) ==> r == Failure(UserNotFound)
      ensures r.Success? ==>
        && who.Authenticated? && who.user.username in old(users)
        && r.value == Patched(old(users)[who.user.username], patch)
        && users == (old(users) - {who.user.username})[r.value.username := r.value]
      ensures r.Success? ==> r.value.role == old(users)[who.user.username].role
      ensures r.Success? ==> Myself(Authenticated(r.value)) == Success(r.value)
      ensures r.Success? ==> ExchangeToken(r.value.username, old(users)[who.user.username].confirmationCode).Success?
      ensures who.Authenticated? && who.user.username in old(users) ==>
        var me := old(users)[who.user.username];
        var u := Patched(me, patch);
        (r.Success? <==>
          (u.username != me.username ==> u.username !in old(users)) &&
          (u.email != me.email ==> !EmailInUse(old(users), u.email)))
    {
      if !who.Authenticated? {
        return Failure(NotAuthenticated);
      }
      if who.user.username !in users {
        return Failure(UserNotFound);
      }
      var me := users[who.user.username];
      var u := Patched(me, patch);
      if u.username != me.username && u.username in users {
        return Failure(UsernameTaken);
      }
      if u.email != me.email && EmailInUse(users, u.email) {
        return Failure(EmailTaken);
      }
      RefileKeepsUsersOk(users, nextId, me.username, u);
      users := (users - {me.username})[u.username := u];
      r := Success(u);
    }
  }

  /** `DELETE /users/{username}`: the record goes, and by CASCADE every review and
      comment it wrote, and every comment on those reviews. */
  method DestroyUser(reg: Registry, cat: Reviews.Catalog, username: string) returns (r: Result<(), AccountError>)
    requires reg.Valid() && cat.Valid()
    modifies reg`users, cat`reviews, cat`comments
    ensures reg.Valid() && cat.Valid()
    ensures username !in old(reg.users) ==>
      r == Failure(UserNotFound) && reg.users == old(reg.users)
      && cat.reviews == old(cat.reviews) && cat.comments == old(cat.comments)
    ensures username in old(reg.users) ==>
      var id := old(reg.users)[username].id;
      && r.Success?
      && reg.users == old(reg.users) - {username}
      && cat.reviews == Reviews.ReviewsKept(old(cat.reviews), None, Some(id))
      && cat.comments == Reviews.CommentsKept(old(cat.comments), cat.reviews.Keys, Some(id))
  {
    if username !in reg.users {
      return Failure(UserNotFound);
    }
    var id := reg.users[username].id;
    reg.users := reg.users - {username};
    cat.DeleteAuthor(id);
    r := Success(());
  }
}
