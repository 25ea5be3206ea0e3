/**
 * The employee service's request filter: a request whose Authorization
 * header is "Bearer <token>" with a token that validates gets its user id,
 * user name and roles stored as request attributes and an authentication
 * whose authorities are the roles with the "ROLE_" prefix; every request,
 * authenticated or not, then goes down the chain exactly once.  Any
 * exception while reading the token is swallowed.  The token operations are
 * parameters; an `Err` is a thrown exception, a `None` a null return.
 */
module EmployeeAuthentication {
  import opened Wrappers
  import opened JavaText

  datatype JwtClaims = JwtClaims(
    validateToken: string -> Result<bool, string>,
    extractUsername: string -> Result<Option<string>, string>,
    extractUserId: string -> Result<Option<string>, string>,
    extractRoles: string -> Result<Option<seq<Option<string>>>, string>)

  /** A request attribute value: a string, or the list of role names. */
  datatype Attribute = Text(text: string) | RoleList(roles: seq<string>)

  /** The authentication put in the security context: principal and authorities (the credentials are null). */
  datatype Authentication = Authentication(principal: Option<string>, authorities: seq<string>)

  /** What a validated token yields: its user name, its user id and its roles (null roles already replaced by []). */
  datatype Grant = Grant(username: Option<string>, userId: Option<string>, roles: seq<string>)

  const BearerPrefix := "Bearer "
  const RolePrefix := "ROLE_"

  /** The authority of one role: the role itself when it has the prefix, the role with the prefix otherwise. */
  function Authority(role: string): (a: string)
    ensures StartsWith(a, RolePrefix)
    ensures a == role || a == RolePrefix + role
    ensures StartsWith(role, RolePrefix) ==> a == role
  {
    if StartsWith(role, RolePrefix) then role else RolePrefix + role
  }

  /** The `roles.stream().map(...)` list: one authority per role, in the same order. */
  function Authorities(roles: seq<string>): (auth: seq<string>)
    ensures |auth| == |roles|
    ensures forall i :: 0 <= i < |roles| ==> auth[i] == Authority(roles[i])
  {
    seq(|roles|, i requires 0 <= i < |roles| => Authority(roles[i]))
  }

  /** Null roles become the empty list. */
  function RolesOrEmpty(roles: Option<seq<Option<string>>>): (r: seq<Option<string>>)
    ensures roles.None? ==> r == []
    ensures roles.Some? ==> r == roles.value
  {
    roles.GetOr([])
  }

  predicate NoNullRole(roles: seq<Option<string>>) {
    forall i :: 0 <= i < |roles| ==> roles[i].Some?
  }

  /** The role names of a list without nulls. */
  function Names(roles: seq<Option<string>>): (names: seq<string>)
    requires NoNullRole(roles)
    ensures |names| == |roles|
    ensures forall i :: 0 <= i < |roles| ==> roles[i] == Some(names[i])
  {
    seq(|roles|, i requires 0 <= i < |roles| => roles[i].value)
  }

  /**
   * The grant of a request, `None` when nothing is stored: no bearer header,
   * a token that does not validate, or an exception on the way (a null role
   * makes `role.startsWith` throw).
   */
  function Authenticate(authHeader: Option<string>, jwt: JwtClaims): Option<Grant> {
    if authHeader.None? || !StartsWith(authHeader.value, BearerPrefix) then None
    else
      var token := authHeader.value[7..];
      if jwt.validateToken(token) != Ok(true) then None
      else
        var username := jwt.extractUsername(token);
        var userId := jwt.extractUserId(token);
        var extracted := jwt.extractRoles(token);
        if username.Err? || userId.Err? || extracted.Err? then None
        else
          var roles := RolesOrEmpty(extracted.value);
          if !NoNullRole(roles) then None
          else Some(Grant(username.value, userId.value, Names(roles)))
  }

  /** `request.setAttribute(name, value)`: a null value removes the attribute. */
  function SetAttribute(attributes: map<string, Attribute>, name: string, value: Option<Attribute>): (r: map<string, Attribute>)
    ensures value.Some? ==> name in r && r[name] == value.value
    ensures value.None? ==> name !in r
    ensures forall n :: n != name ==> (n in r <==> n in attributes) && (n in r ==> r[n] == attributes[n])
  {
    if value.Some? then attributes[name := value.value] else attributes - {name}
  }

  function TextOrNull(s: Option<string>): Option<Attribute> {
    if s.Some? then Some(Text(s.value)) else None
  }

  /** The attributes after a grant: userId, then username, then roles. */
  function WithGrant(attributes: map<string, Attribute>, g: Grant): map<string, Attribute> {
    var a := SetAttribute(attributes, "userId", TextOrNull(g.userId));
    var b := SetAttribute(a, "username", TextOrNull(g.username));
    SetAttribute(b, "roles", Some(RoleList(g.roles)))
  }

  // ----- properties -----

  /** Every authority carries the prefix, and the mapping is idempotent. */
  lemma AuthoritiesNormalised(roles: seq<string>)
    ensures forall i :: 0 <= i < |roles| ==> StartsWith(Authorities(roles)[i], RolePrefix)
    ensures Authorities(Authorities(roles)) == Authorities(roles)
  {
    var once := Authorities(roles);
    forall i | 0 <= i < |roles|
      ensures Authorities(once)[i] == once[i]
    {
      assert StartsWith(once[i], RolePrefix);
    }
  }

  /** Dropping the prefix the mapping added gives back the role. */
  lemma AuthorityRecoversRole(role: string)
    ensures !StartsWith(role, RolePrefix) ==> Authority(role)[|RolePrefix|..] == role
    ensures |Authority(role)| <= |role| + |RolePrefix|
  {
    if !StartsWith(role, RolePrefix) {
      assert (RolePrefix + role)[|RolePrefix|..] == role;
    }
  }

  /** Without a "Bearer " header nothing is examined and nothing is granted. */
  lemma NoBearerNoGrant(authHeader: Option<string>, jwt: JwtClaims)
    requires authHeader.None? || !StartsWith(authHeader.value, BearerPrefix)
    ensures Authenticate(authHeader, jwt).None?
  {}

  /** A token carries a grant exactly when it validates, every claim can be read and no role is null. */
  lemma GrantedExactly(token: string, jwt: JwtClaims)
    ensures var g := Authenticate(Some(BearerPrefix + token), jwt);
      g.Some? <==>
        && jwt.validateToken(token) == Ok(true)
        && jwt.extractUsername(token).Ok? && jwt.extractUserId(token).Ok? && jwt.extractRoles(token).Ok?
        && (jwt.extractRoles(token).value.Some? ==> NoNullRole(jwt.extractRoles(token).value.value))
    ensures var g := Authenticate(Some(BearerPrefix + token), jwt);
      g.Some? ==>
        && g.value.username == jwt.extractUsername(token).value
        && g.value.userId == jwt.extractUserId(token).value
        && (jwt.extractRoles(token).value.None? ==> g.value.roles == [])
        && (jwt.extractRoles(token).value.Some? ==>
              |g.value.roles| == |jwt.extractRoles(token).value.value| &&
              forall i :: 0 <= i < |g.value.roles| ==> jwt.extractRoles(token).value.value[i] == Some(g.value.roles[i]))
  {
    var h := BearerPrefix + token;
    assert StartsWith(h, BearerPrefix);
    assert h[7..] == token;
  }

  /** A missing user id is no error: the grant is made and the "userId" attribute is cleared. */
  lemma NullUserIdStillGrants(attributes: map<string, Attribute>, g: Grant)
    requires g.userId.None?
    ensures "userId" !in WithGrant(attributes, g)
    ensures "roles" in WithGrant(attributes, g) && WithGrant(attributes, g)["roles"] == RoleList(g.roles)
  {}

  /** A grant writes only the three attributes; the others keep their values. */
  lemma GrantKeepsOtherAttributes(attributes: map<string, Attribute>, g: Grant, n: string)
    requires n != "userId" && n != "username" && n != "roles"
    ensures n in WithGrant(attributes, g) <==> n in attributes
    ensures n in attributes ==> WithGrant(attributes, g)[n] == attributes[n]
  {}

  class JwtFilter {
    /** The attributes of the request being filtered. */
    var attributes: map<string, Attribute>
    /** The authentication of the security context. */
    var authentication: Option<Authentication>
    /** How many times `filterChain.doFilter` has been called. */
    var chainCalls: nat

    constructor(attributes: map<string, Attribute>)
      ensures this.attributes == attributes && authentication.None? && chainCalls == 0
    {
      this.attributes := attributes;
      authentication := None;
      chainCalls := 0;
    }

    /** `doFilterInternal`: store the grant, if any, then call the chain once. */
    method DoFilterInternal(authHeader: Option<string>, jwt: JwtClaims)
      modifies this
      ensures chainCalls == old(chainCalls) + 1
      ensures Authenticate(authHeader, jwt).None? ==>
        attributes == old(attributes) && authentication == old(authentication)
      ensures Authenticate(authHeader, jwt).Some? ==>
        var g := Authenticate(authHeader, jwt).value;
        && attributes == WithGrant(old(attributes), g)
        && authentication == Some(Authentication(g.username, Authorities(g.roles)))
    {
      if authHeader.Some? && StartsWith(authHeader.value, BearerPrefix) {
        var token := authHeader.value[7..];
        var valid := jwt.validateToken(token);
        if valid == Ok(true) {
          var username := jwt.extractUsername(token);
          var userId := jwt.extractUserId(token);
          var extracted := jwt.extractRoles(token);
          if username.Ok? && userId.Ok? && extracted.Ok? {
            var roles := extracted.value.GetOr([]);
            if NoNullRole(roles) {
              var names := Names(roles);
              var authorities := Authorities(names);
              attributes := SetAttribute(attributes, "userId", TextOrNull(userId.value));
              attributes := SetAttribute(attributes, "username", TextOrNull(username.value));
              attributes := SetAttribute(attributes, "roles", Some(RoleList(names)));
              authentication := Some(Authentication(username.value, authorities));
            }
          }
        }
      }
      chainCalls := chainCalls + 1;
    }
  }
}
