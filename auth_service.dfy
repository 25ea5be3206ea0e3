/**
 * User registration: reject a taken email, then a taken username; otherwise
 * save a new local account carrying only the default user role, creating
 * that role the first time it is needed.  The password encoder, the token
 * provider, the generated user id and the clock are parameters.
 */
module UserRegistration {
  import opened Wrappers

  type Uuid = int
  type Timestamp = int

  /** `AuthProvider`; registration only ever uses LOCAL. */
  datatype AuthProvider = Local | External(name: string)

  datatype Role = Role(name: string, description: string)

  datatype User = User(
    id: Uuid,
    email: string,
    username: string,
    password: string,
    firstName: string,
    lastName: string,
    phoneNumber: string,
    enabled: bool,
    emailVerified: bool,
    authProvider: AuthProvider,
    roles: set<Role>,
    createdAt: Timestamp,
    lastLogin: Option<Timestamp>)

  datatype RegisterRequest = RegisterRequest(
    email: string, username: string, password: string,
    firstName: string, lastName: string, phoneNumber: string)

  datatype UserDto = UserDto(
    id: Uuid,
    email: string,
    username: string,
    firstName: string,
    lastName: string,
    phoneNumber: string,
    enabled: bool,
    emailVerified: bool,
    roles: set<string>,
    createdAt: Timestamp,
    lastLogin: Option<Timestamp>)

  datatype AuthResponse = AuthResponse(token: string, refreshToken: string, tokenType: string, user: UserDto)

  /** The two token functions of the provider, applied to the user's name. */
  datatype Tokens = Tokens(access: string -> string, refresh: string -> string)

  const UserRoleName := "ROLE_USER"
  const EmailExists := "Email already exists"
  const UsernameExists := "Username already exists"

  predicate EmailTaken(users: seq<User>, email: string) {
    exists k :: 0 <= k < |users| && users[k].email == email
  }

  predicate UsernameTaken(users: seq<User>, username: string) {
    exists k :: 0 <= k < |users| && users[k].username == username
  }

  /** `findByName`: the role with that name (there is at most one, by `SingleUserRole`). */
  function FindRole(roles: seq<Role>, name: string): (r: Option<Role>)
    ensures r.Some? ==> r.value in roles && r.value.name == name
    ensures r.None? <==> forall k :: 0 <= k < |roles| ==> roles[k].name != name
  {
    if |roles| == 0 then None
    else if roles[0].name == name then Some(roles[0])
    else FindRole(roles[1..], name)
  }

  /** The default role as it is created when missing. */
  const DefaultRole := Role(UserRoleName, "Default user role")

  /** The role a new user gets: the stored ROLE_USER, or the default one. */
  function DefaultUserRole(roles: seq<Role>): (role: Role)
    ensures role.name == UserRoleName
  {
    FindRole(roles, UserRoleName).GetOr(DefaultRole)
  }

  /** The role table after a registration: the default role is appended only when none is named ROLE_USER. */
  function RolesAfter(roles: seq<Role>): (after: seq<Role>)
    ensures FindRole(roles, UserRoleName).Some? ==> after == roles
    ensures FindRole(roles, UserRoleName).None? ==> after == roles + [DefaultRole]
    ensures DefaultUserRole(roles) in after
  {
    if FindRole(roles, UserRoleName).Some? then roles else roles + [DefaultRole]
  }

  /** The account `register` builds. */
  function NewUser(request: RegisterRequest, id: Uuid, encoded: string, role: Role, now: Timestamp): (u: User)
    ensures u.enabled && !u.emailVerified && u.authProvider == Local
    ensures u.password == encoded
    ensures u.roles == {role}
    ensures u.email == request.email && u.username == request.username
  {
    User(id, request.email, request.username, encoded, request.firstName, request.lastName,
         request.phoneNumber, true, false, Local, {role}, now, None)
  }

  /** `mapToUserDto`: the user's fields, and the set of its role names. */
  function MapToUserDto(u: User): (dto: UserDto)
    ensures dto.roles == set r | r in u.roles :: r.name
    ensures dto.id == u.id && dto.email == u.email && dto.username == u.username
    ensures dto.enabled == u.enabled && dto.emailVerified == u.emailVerified
  {
    UserDto(u.id, u.email, u.username, u.firstName, u.lastName, u.phoneNumber,
            u.enabled, u.emailVerified, set r | r in u.roles :: r.name, u.createdAt, u.lastLogin)
  }

  /** No two accounts share an email or a username. */
  predicate UniqueAccounts(users: seq<User>) {
    forall i, j :: 0 <= i < j < |users| ==>
      users[i].email != users[j].email && users[i].username != users[j].username
  }

  /** At most one role is named ROLE_USER. */
  predicate SingleUserRole(roles: seq<Role>) {
    forall i, j :: 0 <= i < j < |roles| && roles[i].name == UserRoleName ==> roles[j].name != UserRoleName
  }

  lemma AppendKeepsUnique(users: seq<User>, u: User)
    requires UniqueAccounts(users)
    requires !EmailTaken(users, u.email) && !UsernameTaken(users, u.username)
    ensures UniqueAccounts(users + [u])
  {
    var t := users + [u];
    forall i, j | 0 <= i < j < |t|
      ensures t[i].email != t[j].email && t[i].username != t[j].username
    {
      if j == |users| {
        assert t[i] == users[i];
      }
    }
  }

  lemma RolesAfterKeepsSingle(roles: seq<Role>)
    requires SingleUserRole(roles)
    ensures SingleUserRole(RolesAfter(roles))
  {
    var t := RolesAfter(roles);
    if FindRole(roles, UserRoleName).None? {
      assert forall k :: 0 <= k < |roles| ==> t[k] == roles[k];
    }
  }

  /** A new account's DTO lists exactly the role ROLE_USER. */
  lemma NewUserDtoRoles(request: RegisterRequest, id: Uuid, encoded: string, roles: seq<Role>, now: Timestamp)
    ensures MapToUserDto(NewUser(request, id, encoded, DefaultUserRole(roles), now)).roles == {UserRoleName}
  {
    var role := DefaultUserRole(roles);
    var dto := MapToUserDto(NewUser(request, id, encoded, role, now));
    assert role in {role};
  }

  class AuthService {
    var users: seq<User>
    var roles: seq<Role>

    ghost predicate Valid()
      reads this
    {
      UniqueAccounts(users) && SingleUserRole(roles)
    }

    constructor()
      ensures Valid() && users == [] && roles == []
    {
      users := [];
      roles := [];
    }

    /** `register`: the email is checked before the username; a rejection saves nothing. */
    method Register(request: RegisterRequest, newId: Uuid, now: Timestamp, encode: string -> string, tokens: Tokens)
      returns (r: Result<AuthResponse, string>)
      requires Valid()
      modifies this
      ensures Valid()
      ensures EmailTaken(old(users), request.email) ==>
        r == Err(EmailExists) && users == old(users) && roles == old(roles)
      ensures !EmailTaken(old(users), request.email) && UsernameTaken(old(users), request.username) ==>
        r == Err(UsernameExists) && users == old(users) && roles == old(roles)
      ensures !EmailTaken(old(users), request.email) && !UsernameTaken(old(users), request.username) ==>
        var user := NewUser(request, newId, encode(request.password), DefaultUserRole(old(roles)), now);
        && roles == RolesAfter(old(roles))
        && users == old(users) + [user]
        && r == Ok(AuthResponse(tokens.access(user.username), tokens.refresh(user.username), "Bearer",
                                MapToUserDto(user)))
    {
      if EmailTaken(users, request.email) {
        return Err(EmailExists);
      }
      if UsernameTaken(users, request.username) {
        return Err(UsernameExists);
      }
      var user := User(newId, request.email, request.username, encode(request.password),
                       request.firstName, request.lastName, request.phoneNumber,
                       true, false, Local, {}, now, None);
      var found := FindRole(roles, UserRoleName);
      var userRole: Role;
      if found.Some? {
        userRole := found.value;
      } else {
        RolesAfterKeepsSingle(roles);
        userRole := DefaultRole;
        roles := roles + [userRole];
      }
      var granted: set<Role> := {};
      granted := granted + {userRole};
      user := user.(roles := granted);
      assert userRole == DefaultUserRole(old(roles)) && granted == {userRole};
      assert user == NewUser(request, newId, encode(request.password), userRole, now);
      AppendKeepsUnique(users, user);
      users := users + [user];
      var access := tokens.access(user.username);
      var refresh := tokens.refresh(user.username);
      return Ok(AuthResponse(access, refresh, "Bearer", MapToUserDto(user)));
    }
  }
}
