/** The two access policies of the content API, as pure decisions over the request
    method, the requesting user and (at object level) the object's author. */
module Permissions {
  import opened UserModels

  datatype Method = GET | HEAD | OPTIONS | POST | PUT | PATCH | DELETE

  /** The framework's `SAFE_METHODS`. */
  predicate IsSafe(m: Method) { m == GET || m == HEAD || m == OPTIONS }

  /** Who sends a request: nobody, or a stored user whose token was accepted. */
  datatype Requester = Anonymous | Authenticated(user: User)

  /** `request.user.is_superuser`; the anonymous user is never a superuser. */
  predicate IsSuperuser(who: Requester) { who.Authenticated? && who.user.superuser }

  /** `request.user == obj.author`: the same primary key. */
  predicate IsAuthor(who: Requester, author: nat) { who.Authenticated? && who.user.id == author }

  // ---- IsAuthorOrAdminOrModerator: reviews and comments ----

  /** View level: reads are open; any logged-in user may write. */
  predicate ContentAllows(m: Method, who: Requester)
    ensures who.Authenticated? ==> ContentAllows(m, who)
    ensures who.Anonymous? ==> (ContentAllows(m, who) <==> IsSafe(m))
  {
    if IsSafe(m) then true else who.Authenticated?
  }

  predicate ContentAllowsObject(m: Method, who: Requester, author: nat)
    ensures ContentAllowsObject(m, who, author) ==> ContentAllows(m, who)
  {
    if IsSafe(m) then true
    else who.Authenticated? && (IsAdmin(who.user) || IsModerator(who.user) || IsAuthor(who, author))
  }

  // ---- AdminOnlyOrRead: categories, genres and titles ----
  // The source reads `is_authenticated and is_admin or is_superuser`; Python binds
  // `and` tighter than `or`, which the parentheses below spell out.

  /** View level: reads are open; writes need an admin or a superuser. The catalog
      policy is never more permissive than the content policy. */
  predicate CatalogAllows(m: Method, who: Requester)
    ensures CatalogAllows(m, who) ==> ContentAllows(m, who)
    ensures IsSafe(m) ==> CatalogAllows(m, who)
    ensures !IsSafe(m) && CatalogAllows(m, who) ==> who.Authenticated? && (IsAdmin(who.user) || who.user.superuser)
  {
    if IsSafe(m) then true
    else (who.Authenticated? && IsAdmin(who.user)) || IsSuperuser(who)
  }

  predicate CatalogAllowsObject(m: Method, who: Requester)
    ensures CatalogAllowsObject(m, who) == CatalogAllows(m, who)
  {
    if IsSafe(m) then true
    else (who.Authenticated? && IsAdmin(who.user)) || IsSuperuser(who)
  }

  // ---- Properties of the two policies ----

  /** Reads are open to everybody, anonymous requests included, under both policies and at both levels. */
  lemma SafeAlwaysAllowed(m: Method, who: Requester, author: nat)
    requires IsSafe(m)
    ensures ContentAllows(m, who) && ContentAllowsObject(m, who, author)
    ensures CatalogAllows(m, who) && CatalogAllowsObject(m, who)
  {
  }

  /** No write is allowed to an anonymous request, under either policy. */
  lemma AnonymousCannotWrite(m: Method, author: nat)
    requires !IsSafe(m)
    ensures !ContentAllows(m, Anonymous) && !ContentAllowsObject(m, Anonymous, author)
    ensures !CatalogAllows(m, Anonymous) && !CatalogAllowsObject(m, Anonymous)
  {
  }

  /** View level of the content policy: a write is let through exactly for an authenticated user. */
  lemma ContentWriteNeedsLogin(m: Method, who: Requester)
    requires !IsSafe(m)
    ensures ContentAllows(m, who) <==> who.Authenticated?
  {
  }

  /** Object level of the content policy: a write needs a login and one of admin, moderator or author. */
  lemma ContentObjectWrite(m: Method, who: Requester, author: nat)
    requires !IsSafe(m)
    ensures ContentAllowsObject(m, who, author) <==>
      who.Authenticated? && (who.user.role == Admin || who.user.role == Moderator || who.user.id == author)
  {
  }

  /** The content policy has no superuser clause: a superuser whose role is "user" cannot
      change someone else's review or comment. */
  lemma SuperuserIsNotContentOwner(m: Method, u: User, author: nat)
    requires !IsSafe(m) && u.superuser && u.role == Member && u.id != author
    ensures !ContentAllowsObject(m, Authenticated(u), author)
  {
  }

  /** The catalog policy lets a write through exactly for an admin or a superuser. */
  lemma CatalogWrite(m: Method, who: Requester)
    requires !IsSafe(m)
    ensures CatalogAllows(m, who) <==> who.Authenticated? && (who.user.role == Admin || who.user.superuser)
  {
  }

  /** A moderator who is neither admin nor superuser cannot change the catalog. */
  lemma ModeratorCannotEditCatalog(m: Method, u: User)
    requires !IsSafe(m) && u.role == Moderator && !u.superuser
    ensures !CatalogAllows(m, Authenticated(u)) && !CatalogAllowsObject(m, Authenticated(u))
  {
  }
}
