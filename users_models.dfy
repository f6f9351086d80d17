/** The user record of the service (`CustomUser`): its roles, its field defaults,
    the derived `is_admin`/`is_moderator` flags and the uniqueness of its keys. */
module UserModels {
  import opened Wrappers

  /** The three values of `ROLES_CHOICES`; `Member` is the role stored as "user". */
  datatype Role = Member | Moderator | Admin

  /** The string a role is stored as. */
  function RoleName(r: Role): string {
    match r
    case Member => "user"
    case Moderator => "moderator"
    case Admin => "admin"
  }

  /** The choice check on the `role` field: only the three stored names are accepted. */
  function ParseRole(s: string): (r: Option<Role>)
    ensures r.Some? ==> RoleName(r.value) == s
    ensures r.None? ==> forall role: Role :: RoleName(role) != s
  {
    if s == "user" then Some(Member)
    else if s == "moderator" then Some(Moderator)
    else if s == "admin" then Some(Admin)
    else None
  }

  lemma ParseRoleName(r: Role)
    ensures ParseRole(RoleName(r)) == Some(r)
  {
  }

  const DefaultRole: Role := Member
  const DefaultFirstName: string := "first name"
  const DefaultLastName: string := "last name"
  const DefaultBio: string := "bio"
  const DefaultCode: string := "12233"

  /** A stored user. `id` is the primary key the reviews and comments refer to;
      `superuser` is the framework's `is_superuser` flag, false unless set outside the API. */
  datatype User = User(
    id: nat,
    username: string,
    email: string,
    firstName: string,
    lastName: string,
    bio: string,
    role: Role,
    superuser: bool,
    confirmationCode: string)

  /** `is_admin`: the stored role string is "admin"; the superuser flag plays no part. */
  predicate IsAdmin(u: User)
    ensures IsAdmin(u) <==> RoleName(u.role) == "admin"
  {
    u.role == Admin
  }

  /** `is_moderator`: the stored role string is "moderator". */
  predicate IsModerator(u: User)
    ensures IsModerator(u) <==> RoleName(u.role) == "moderator"
  {
    u.role == Moderator
  }

  lemma AdminIsNotModerator(u: User)
    ensures !(IsAdmin(u) && IsModerator(u))
  {
  }

  /** The optional fields of a new record; an absent one takes the model's default. */
  datatype UserFields = UserFields(
    firstName: Option<string>,
    lastName: Option<string>,
    bio: Option<string>,
    role: Option<Role>,
    code: Option<string>)

  const NoFields: UserFields := UserFields(None, None, None, None, None)

  /** `CustomUser(...)`: a new record with every absent field set to its default. */
  function NewUser(id: nat, username: string, email: string, f: UserFields): (u: User)
    ensures u.id == id && u.username == username && u.email == email && !u.superuser
    ensures f.role.None? ==> u.role == Member
    ensures f.code.None? ==> u.confirmationCode == "12233"
    ensures f.firstName.None? ==> u.firstName == "first name"
    ensures f.lastName.None? ==> u.lastName == "last name"
    ensures f.bio.None? ==> u.bio == "bio"
    ensures f.role.Some? ==> u.role == f.role.value
    ensures f.code.Some? ==> u.confirmationCode == f.code.value
    ensures f.firstName.Some? ==> u.firstName == f.firstName.value
    ensures f.lastName.Some? ==> u.lastName == f.lastName.value
    ensures f.bio.Some? ==> u.bio == f.bio.value
  {
    User(id, username, email,
         f.firstName.GetOr(DefaultFirstName), f.lastName.GetOr(DefaultLastName),
         f.bio.GetOr(DefaultBio), f.role.GetOr(DefaultRole), false, f.code.GetOr(DefaultCode))
  }

  /** The table's constraints: each record is filed under its own username (unique by
      construction of the map), ids are below the next id to hand out, and no two
      records share an id or an email. */
  ghost predicate UsersOk(users: map<string, User>, nextId: nat) {
    && (forall name | name in users :: users[name].username == name && users[name].id < nextId)
    && (forall a, b | a in users && b in users && a != b ::
          users[a].email != users[b].email && users[a].id != users[b].id)
  }

  /** Some record has this email. */
  predicate EmailInUse(users: map<string, User>, email: string) {
    exists name | name in users :: users[name].email == email
  }

  /** Some record holds this confirmation code. */
  predicate CodeInUse(users: map<string, User>, code: string) {
    exists name | name in users :: users[name].confirmationCode == code
  }

  /** Filing a record under a fresh username with a fresh id and an unused email keeps the constraints. */
  lemma InsertKeepsUsersOk(users: map<string, User>, nextId: nat, u: User)
    requires UsersOk(users, nextId)
    requires u.username !in users && u.id == nextId && !EmailInUse(users, u.email)
    ensures UsersOk(users[u.username := u], nextId + 1)
  {
  }
}
