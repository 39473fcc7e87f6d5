/**
 * The front end's authentication state: who is signed in, whether the session is
 * authenticated, the token kept in the browser's storage, and the role checks the
 * pages use to decide what to show.
 */
module AuthState {
  import opened Wrappers
  import opened Js

  const Admin: Json := Str("Admin")
  const NoTokenMessage: string := "No token received from server"

  // ---------------------------------------------------------------------------
  // Role checks

  /** `hasRole(requiredRole)` for the signed-in `user`. */
  function HasRole(user: Json, requiredRole: Json): (r: bool)
    ensures r ==> Truthy(user) && Truthy(Field(user, "role"))
  {
    if !Truthy(user) || !Truthy(Field(user, "role")) then false
    else if StrictEquals(Field(user, "role"), Admin) then true
    else StrictEquals(Field(user, "role"), requiredRole)
  }

  /** Nobody without a role passes a check, an Admin passes every check, and anyone
    * else passes exactly the check for their own role. */
  lemma RoleRules(user: Json, requiredRole: Json)
    ensures !Truthy(user) || !Truthy(Field(user, "role")) ==> !HasRole(user, requiredRole)
    ensures Truthy(user) && Field(user, "role") == Admin ==> HasRole(user, requiredRole)
    ensures Truthy(user) && Truthy(Field(user, "role")) && Field(user, "role") != Admin ==>
      (HasRole(user, requiredRole) <==> StrictEquals(Field(user, "role"), requiredRole))
  {
  }

  /** `hasAnyRole(roles)`: `roles.some(hasRole)`. */
  function HasAnyRole(user: Json, roles: seq<Json>): (r: bool)
    ensures r <==> exists i :: 0 <= i < |roles| && HasRole(user, roles[i])
  {
    if roles == [] then false
    else if HasRole(user, roles[0]) then true
    else
      assert forall i :: 0 < i < |roles| ==> roles[i] == roles[1..][i - 1];
      HasAnyRole(user, roles[1..])
  }

  /** No list of roles lets a user without a role in, and an Admin passes any
    * non-empty list. */
  lemma AnyRoleRules(user: Json, roles: seq<Json>)
    ensures !Truthy(user) || !Truthy(Field(user, "role")) ==> !HasAnyRole(user, roles)
    ensures Truthy(user) && Field(user, "role") == Admin ==> (HasAnyRole(user, roles) <==> roles != [])
  {
    if Truthy(user) && Field(user, "role") == Admin && roles != [] {
      assert HasRole(user, roles[0]);
    }
  }

  /** What `useRole()` returns. */
  datatype RoleView = RoleView(userRole: Json, isAdmin: bool, isManager: bool, isTechnician: bool, isCustomer: bool)

  function UseRole(user: Json): RoleView {
    RoleView(OptGet(user, "role"), HasRole(user, Admin), HasRole(user, Str("Manager")),
             HasRole(user, Str("Technician")), HasRole(user, Str("Customer")))
  }

  /** An Admin has every flag; anyone else has at most the one flag of their role. */
  lemma RoleViewFlags(user: Json)
    ensures Truthy(user) && Field(user, "role") == Admin ==>
      var v := UseRole(user); v.isAdmin && v.isManager && v.isTechnician && v.isCustomer
    ensures Field(user, "role") != Admin ==>
      var v := UseRole(user);
      !v.isAdmin
      && (v.isManager <==> Truthy(user) && Field(user, "role") == Str("Manager"))
      && (v.isTechnician <==> Truthy(user) && Field(user, "role") == Str("Technician"))
      && (v.isCustomer <==> Truthy(user) && Field(user, "role") == Str("Customer"))
  {
  }

  // ---------------------------------------------------------------------------
  // The login response

  /** `response.data?.token || response.data?.Token`. */
  function TokenOf(data: Json): (r: Json)
    ensures Truthy(r) ==> r == OptGet(data, "token") || r == OptGet(data, "Token")
  {
    Or(OptGet(data, "token"), OptGet(data, "Token"))
  }

  /** `response.data?.user || response.data?.User || response.data`. */
  function UserOf(data: Json): (r: Json)
    ensures r == OptGet(data, "user") || r == OptGet(data, "User") || r == data
  {
    Or(Or(OptGet(data, "user"), OptGet(data, "User")), data)
  }

  /** `error.response?.data?.message || error.message || 'Login failed'`. */
  function ErrorMessage(error: Json): (r: Json)
    ensures Truthy(r)
  {
    Or(Or(OptGet(OptGet(Field(error, "response"), "data"), "message"), Field(error, "message")), Str("Login failed"))
  }

  /** The token is read under either spelling, the lower-case one first; a response
    * carrying neither has none. */
  lemma TokenSpellings(fields: map<string, Json>)
    ensures "token" in fields && Truthy(fields["token"]) ==> TokenOf(Obj(fields)) == fields["token"]
    ensures ("token" !in fields || !Truthy(fields["token"])) && "Token" in fields ==> TokenOf(Obj(fields)) == fields["Token"]
    ensures "token" !in fields && "Token" !in fields ==> !Truthy(TokenOf(Obj(fields)))
  {
  }

  /** The user is the response's `user` (or `User`) field, or else the whole payload. */
  lemma UserFallsBackToPayload(data: Json)
    ensures Truthy(OptGet(data, "user")) ==> UserOf(data) == OptGet(data, "user")
    ensures !Truthy(OptGet(data, "user")) && Truthy(OptGet(data, "User")) ==> UserOf(data) == OptGet(data, "User")
    ensures !Truthy(OptGet(data, "user")) && !Truthy(OptGet(data, "User")) ==> UserOf(data) == data
  {
  }

  /** An error without a server message reports its own message, or "Login failed". */
  lemma ErrorMessageFallbacks(message: string)
    ensures message != "" ==> ErrorMessage(Obj(map["message" := Str(message)])) == Str(message)
    ensures ErrorMessage(Obj(map[])) == Str("Login failed")
  {
    assert Field(Obj(map["message" := Str(message)]), "response") == Undefined;
  }

  /** What `login` resolves to. */
  datatype LoginResult = Success(user: Json) | Failure(error: Json)

  /** `setAuthToken(t)`: stores a truthy token, removes the stored one otherwise. */
  function Stored(token: Json): (r: Option<Json>)
    ensures r.Some? <==> Truthy(token)
    ensures r.Some? ==> r.value == token
  {
    if Truthy(token) then Some(token) else None
  }

  // ---------------------------------------------------------------------------
  // The provider

  class AuthProvider {
    var user: Json
    var loading: bool
    var isAuthenticated: bool
    /** The `authToken` entry of the browser's storage. */
    var storedToken: Option<Json>

    /** An authenticated session always has a stored token. */
    predicate Consistent()
      reads this
    {
      isAuthenticated ==> storedToken.Some? && Truthy(storedToken.value)
    }

    /** The first render: no user, loading, not authenticated. */
    constructor (stored: Option<Json>)
      ensures user == Null && loading && !isAuthenticated && storedToken == stored
      ensures Consistent()
    {
      user := Null;
      loading := true;
      isAuthenticated := false;
      storedToken := stored;
    }

    /** The mount effect: with a stored token, asks for the profile (`profile`, or
      * `Err` when the request fails) and keeps the session or clears it. */
    method Restore(profile: Result<Json, Json>)
      modifies this
      ensures !loading && (old(Consistent()) ==> Consistent())
      ensures !(old(storedToken).Some? && Truthy(old(storedToken).value)) ==>
        user == old(user) && isAuthenticated == old(isAuthenticated) && storedToken == old(storedToken)
      ensures old(storedToken).Some? && Truthy(old(storedToken).value) && profile.Ok? ==>
        user == profile.value && isAuthenticated && storedToken == old(storedToken)
      ensures old(storedToken).Some? && Truthy(old(storedToken).value) && profile.Err? ==>
        user == Null && !isAuthenticated && storedToken == None
    {
      if storedToken.Some? && Truthy(storedToken.value) {
        match profile
        case Ok(data) =>
          user := data;
          isAuthenticated := true;
        case Err(_) =>
          storedToken := Stored(Null);
          user := Null;
          isAuthenticated := false;
      }
      loading := false;
    }

    /** `login(credentials)`: `response` is the payload the server answered with, or
      * `Err` of the error the request threw. */
    method Login(response: Result<Json, Json>) returns (r: LoginResult)
      modifies this
      ensures !loading
      ensures old(Consistent()) ==> Consistent()
      ensures response.Err? ==>
        r == Failure(ErrorMessage(response.error))
        && user == old(user) && isAuthenticated == old(isAuthenticated) && storedToken == old(storedToken)
      ensures response.Ok? && !Truthy(TokenOf(response.value)) ==>
        r == Failure(Str(NoTokenMessage))
        && user == old(user) && isAuthenticated == old(isAuthenticated) && storedToken == old(storedToken)
      ensures response.Ok? && Truthy(TokenOf(response.value)) ==>
        r == Success(UserOf(response.value))
        && user == UserOf(response.value) && isAuthenticated && storedToken == Some(TokenOf(response.value))
    {
      loading := true;
      match response {
        case Err(error) =>
          r := Failure(ErrorMessage(error));
        case Ok(data) =>
          var token := TokenOf(data);
          var userData := UserOf(data);
          if !Truthy(token) {
            r := Failure(ErrorMessage(Obj(map["message" := Str(NoTokenMessage)])));
            assert r == Failure(Str(NoTokenMessage)) by {
              ErrorMessageFallbacks(NoTokenMessage);
            }
          } else {
            storedToken := Stored(token);
            user := userData;
            isAuthenticated := true;
            r := Success(userData);
          }
      }
      loading := false;
    }

    /** `logout()`: forgets the token and the user. */
    method Logout()
      modifies this
      ensures storedToken == None && user == Null && !isAuthenticated && loading == old(loading)
      ensures Consistent()
    {
      storedToken := Stored(Null);
      user := Null;
      isAuthenticated := false;
    }

    /** `updateUser(userData)`. */
    method UpdateUser(userData: Json)
      modifies this
      ensures user == userData && isAuthenticated == old(isAuthenticated)
      ensures storedToken == old(storedToken) && loading == old(loading)
      ensures old(Consistent()) ==> Consistent()
    {
      user := userData;
    }
  }
}
