/**
 * The authentication service: login, registration, refresh-token rotation and
 * revocation over a user table and a refresh-token table. Password hashing, JWT
 * creation, the random generators and the clock are parameters: `Crypto` for the
 * password hash, `jwt` for the signed access token, a `TokenSeed` for the fresh
 * identifier and token string of the one refresh token a call may create, and `now`
 * (in seconds) for the current time.
 */
module Auth {
  import opened Wrappers
  import DataAccess

  /** An access token is valid for one hour, a refresh token for seven days. */
  const JwtLifetime: int := 3600
  const RefreshLifetime: int := 7 * 86400

  const InvalidCredentials: string := "Invalid email or password"
  const AccountInactive: string := "Account is inactive"
  const InvalidToken: string := "Invalid or expired refresh token"
  const UserUnavailable: string := "User not found or inactive"

  datatype User = User(id: nat, email: string, name: string, role: string, passwordHash: string, createdAt: int, isActive: bool)
  datatype RefreshToken = RefreshToken(id: nat, token: string, expiresAt: int, createdAt: int, userId: nat, isRevoked: bool)

  datatype LoginRequest = LoginRequest(email: string, password: string)
  datatype RegisterRequest = RegisterRequest(email: string, name: string, role: string, password: string)
  datatype UserInfo = UserInfo(id: nat, email: string, name: string, role: string)
  datatype LoginResponse = LoginResponse(token: string, refreshToken: string, expiresAt: int, user: UserInfo)

  datatype AuthError =
    | Unauthorized(message: string)   // UnauthorizedAccessException
    | EmailTaken                      // "User with this email already exists"

  /** The random values behind one new refresh token: its identifier and its
    * Base64 token string. */
  datatype TokenSeed = TokenSeed(id: nat, token: string)

  /** The password hash: `verify(p, hash(p))` is what the hash promises. */
  datatype Crypto = Crypto(hash: string -> string, verify: (string, string) -> bool)

  ghost predicate Sound(c: Crypto) {
    forall p :: c.verify(p, c.hash(p))
  }

  // ---------------------------------------------------------------------------
  // Specification functions

  function HasEmail(email: string): User -> bool { (u: User) => u.email == email }
  function HasId(id: nat): User -> bool { (u: User) => u.id == id }
  function HasToken(token: string): RefreshToken -> bool { (rt: RefreshToken) => rt.token == token }

  /** `GetByExpression(u => u.Email == email)`: the first user with that email. */
  function UserByEmail(users: seq<User>, email: string): (r: Option<nat>)
    ensures r.Some? ==> r.value < |users| && users[r.value].email == email
    ensures r.Some? ==> forall j :: 0 <= j < r.value ==> users[j].email != email
    ensures r.None? ==> forall j :: 0 <= j < |users| ==> users[j].email != email
  {
    DataAccess.FirstIndexFrom(users, HasEmail(email), 0)
  }

  /** `GetById(id)`: the first user with that identifier. */
  function UserById(users: seq<User>, id: nat): (r: Option<nat>)
    ensures r.Some? ==> r.value < |users| && users[r.value].id == id
    ensures r.Some? ==> forall j :: 0 <= j < r.value ==> users[j].id != id
    ensures r.None? ==> forall j :: 0 <= j < |users| ==> users[j].id != id
  {
    DataAccess.FirstIndexFrom(users, HasId(id), 0)
  }

  /** `GetByExpression(rt => rt.Token == token)`: the first refresh token with that string. */
  function TokenByString(tokens: seq<RefreshToken>, token: string): (r: Option<nat>)
    ensures r.Some? ==> r.value < |tokens| && tokens[r.value].token == token
    ensures r.Some? ==> forall j :: 0 <= j < r.value ==> tokens[j].token != token
    ensures r.None? ==> forall j :: 0 <= j < |tokens| ==> tokens[j].token != token
  {
    DataAccess.FirstIndexFrom(tokens, HasToken(token), 0)
  }

  /** The user a login admits, or why it is refused. */
  function LoginCheck(users: seq<User>, crypto: Crypto, request: LoginRequest): (r: Result<nat, AuthError>)
    ensures r.Ok? ==> var i := r.value;
      && i < |users| && users[i].email == request.email && users[i].isActive
      && crypto.verify(request.password, users[i].passwordHash)
      && forall j :: 0 <= j < i ==> users[j].email != request.email
    ensures r.Err? ==> r.error == Unauthorized(InvalidCredentials) || r.error == Unauthorized(AccountInactive)
    ensures (forall j :: 0 <= j < |users| ==> users[j].email != request.email) ==> r == Err(Unauthorized(InvalidCredentials))
  {
    match UserByEmail(users, request.email)
    case None => Err(Unauthorized(InvalidCredentials))
    case Some(i) =>
      if !crypto.verify(request.password, users[i].passwordHash) then Err(Unauthorized(InvalidCredentials))
      else if !users[i].isActive then Err(Unauthorized(AccountInactive))
      else Ok(i)
  }

  /** The refresh token (by position) and the user a refresh admits, or why it is refused. */
  function RefreshCheck(users: seq<User>, tokens: seq<RefreshToken>, token: string, now: int): (r: Result<(nat, nat), AuthError>)
    ensures r.Ok? ==> var (i, j) := r.value;
      && i < |tokens| && tokens[i].token == token && !tokens[i].isRevoked && now <= tokens[i].expiresAt
      && j < |users| && users[j].id == tokens[i].userId && users[j].isActive
    ensures r.Err? ==> r.error == Unauthorized(InvalidToken) || r.error == Unauthorized(UserUnavailable)
  {
    match TokenByString(tokens, token)
    case None => Err(Unauthorized(InvalidToken))
    case Some(i) =>
      if tokens[i].isRevoked || tokens[i].expiresAt < now then Err(Unauthorized(InvalidToken))
      else
        match UserById(users, tokens[i].userId)
        case None => Err(Unauthorized(UserUnavailable))
        case Some(j) => if !users[j].isActive then Err(Unauthorized(UserUnavailable)) else Ok((i, j))
  }

  /** `GenerateRefreshToken(userId)` at time `now`. */
  function NewToken(seed: TokenSeed, userId: nat, now: int): (t: RefreshToken)
    ensures t.userId == userId && t.token == seed.token && !t.isRevoked
    ensures t.expiresAt == now + RefreshLifetime && t.createdAt == now
  {
    RefreshToken(seed.id, seed.token, now + RefreshLifetime, now, userId, false)
  }

  /** The user `RegisterAsync` creates: active, with the hash of the password. */
  function NewUser(request: RegisterRequest, id: nat, now: int, crypto: Crypto): (u: User)
    ensures u.email == request.email && u.isActive && u.passwordHash == crypto.hash(request.password)
  {
    User(id, request.email, request.name, request.role, crypto.hash(request.password), now, true)
  }

  /** The response of a successful login or refresh. */
  function Response(jwt: (User, int) -> string, user: User, refreshToken: string, now: int): LoginResponse {
    LoginResponse(jwt(user, now), refreshToken, now + JwtLifetime, UserInfo(user.id, user.email, user.name, user.role))
  }

  /** The token table with the token at position `i` revoked. */
  function Revoked(tokens: seq<RefreshToken>, i: nat): (r: seq<RefreshToken>)
    requires i < |tokens|
    ensures |r| == |tokens| && r[i].isRevoked
    ensures r[i].id == tokens[i].id && r[i].token == tokens[i].token && r[i].userId == tokens[i].userId
    ensures r[i].expiresAt == tokens[i].expiresAt && r[i].createdAt == tokens[i].createdAt
    ensures forall k :: 0 <= k < |tokens| && k != i ==> r[k] == tokens[k]
  {
    tokens[i := tokens[i].(isRevoked := true)]
  }

  /** What `RevokeTokenAsync(token)` returns and the token table after it. */
  function RevokeOutcome(tokens: seq<RefreshToken>, token: string): (r: (bool, seq<RefreshToken>))
    ensures r.0 <==> exists k :: 0 <= k < |tokens| && tokens[k].token == token
    ensures !r.0 ==> r.1 == tokens
  {
    match TokenByString(tokens, token)
    case None => (false, tokens)
    case Some(i) => (true, Revoked(tokens, i))
  }

  // ---------------------------------------------------------------------------
  // Properties

  /** No two users share an identifier. */
  predicate UniqueIds(users: seq<User>) {
    forall a, b :: 0 <= a < b < |users| ==> users[a].id != users[b].id
  }

  /** A login for an email nobody has, a wrong password or an inactive account is refused. */
  lemma LoginRefusals(users: seq<User>, crypto: Crypto, request: LoginRequest, i: nat)
    requires i < |users| && users[i].email == request.email
    requires forall j :: 0 <= j < i ==> users[j].email != request.email
    ensures !crypto.verify(request.password, users[i].passwordHash) ==>
      LoginCheck(users, crypto, request) == Err(Unauthorized(InvalidCredentials))
    ensures crypto.verify(request.password, users[i].passwordHash) && !users[i].isActive ==>
      LoginCheck(users, crypto, request) == Err(Unauthorized(AccountInactive))
    ensures crypto.verify(request.password, users[i].passwordHash) && users[i].isActive ==>
      LoginCheck(users, crypto, request) == Ok(i)
  {
    DataAccess.FirstIndexIs(users, HasEmail(request.email), i);
  }

  /** Right after registering under an unused email, logging in with the same password
    * admits the new user. */
  lemma RegisteredUserCanLogIn(users: seq<User>, crypto: Crypto, request: RegisterRequest, id: nat, now: int)
    requires Sound(crypto)
    requires forall j :: 0 <= j < |users| ==> users[j].email != request.email
    ensures LoginCheck(users + [NewUser(request, id, now, crypto)], crypto, LoginRequest(request.email, request.password))
      == Ok(|users|)
  {
    var all := users + [NewUser(request, id, now, crypto)];
    assert crypto.verify(request.password, crypto.hash(request.password));
    LoginRefusals(all, crypto, LoginRequest(request.email, request.password), |users|);
  }

  /** A refresh token is accepted up to and including the instant it expires; a revoked
    * or expired one is refused. */
  lemma TokenAcceptedUntilExpiry(users: seq<User>, tokens: seq<RefreshToken>, token: string, now: int, i: nat)
    requires TokenByString(tokens, token) == Some(i)
    ensures tokens[i].isRevoked || now > tokens[i].expiresAt ==> RefreshCheck(users, tokens, token, now) == Err(Unauthorized(InvalidToken))
    ensures !tokens[i].isRevoked && now <= tokens[i].expiresAt ==> RefreshCheck(users, tokens, token, now) != Err(Unauthorized(InvalidToken))
  {
  }

  /** After a successful refresh, the old token string is refused at every later time:
    * its first occurrence stays where it was and is now revoked. */
  lemma RefreshedTokenIsDead(users: seq<User>, tokens: seq<RefreshToken>, token: string, now: int, seed: TokenSeed, later: int)
    requires RefreshCheck(users, tokens, token, now).Ok?
    ensures var (i, j) := RefreshCheck(users, tokens, token, now).value;
      var after := Revoked(tokens, i) + [NewToken(seed, users[j].id, now)];
      RefreshCheck(users, after, token, later) == Err(Unauthorized(InvalidToken))
  {
    var (i, j) := RefreshCheck(users, tokens, token, now).value;
    var after := Revoked(tokens, i) + [NewToken(seed, users[j].id, now)];
    assert TokenByString(tokens, token) == Some(i);
    forall k | 0 <= k < i
      ensures after[k].token != token
    {
      assert after[k] == tokens[k];
    }
    DataAccess.FirstIndexIs(after, HasToken(token), i);
  }

  /** The token a login issues can be refreshed at any time in the next seven days, as
    * long as its string is new and the user's identifier is unique. */
  lemma IssuedTokenRefreshable(users: seq<User>, tokens: seq<RefreshToken>, i: nat, seed: TokenSeed, now: int, later: int)
    requires i < |users| && users[i].isActive && UniqueIds(users)
    requires forall k :: 0 <= k < |tokens| ==> tokens[k].token != seed.token
    requires now <= later <= now + RefreshLifetime
    ensures RefreshCheck(users, tokens + [NewToken(seed, users[i].id, now)], seed.token, later) == Ok((|tokens|, i))
  {
    var after := tokens + [NewToken(seed, users[i].id, now)];
    DataAccess.FirstIndexIs(after, HasToken(seed.token), |tokens|);
    DataAccess.FirstIndexIs(users, HasId(users[i].id), i);
  }

  /** A live token whose user exists and is active is accepted; a live token whose
    * user is missing or inactive is refused as unavailable. */
  lemma LiveTokenRefreshes(users: seq<User>, tokens: seq<RefreshToken>, token: string, now: int, i: nat)
    requires TokenByString(tokens, token) == Some(i)
    requires !tokens[i].isRevoked && now <= tokens[i].expiresAt
    ensures var u := UserById(users, tokens[i].userId);
      u.Some? && users[u.value].isActive ==> RefreshCheck(users, tokens, token, now) == Ok((i, u.value))
    ensures var u := UserById(users, tokens[i].userId);
      u.None? || !users[u.value].isActive ==> RefreshCheck(users, tokens, token, now) == Err(Unauthorized(UserUnavailable))
  {
  }

  /** Revoking twice is revoking once: the second call still reports the token and
    * changes nothing more. */
  lemma RevokeIdempotent(tokens: seq<RefreshToken>, token: string)
    ensures var once := RevokeOutcome(tokens, token);
      var twice := RevokeOutcome(once.1, token);
      twice.0 == once.0 && twice.1 == once.1
  {
    match TokenByString(tokens, token)
    case None =>
    case Some(i) =>
      var once := Revoked(tokens, i);
      forall k | 0 <= k < i
        ensures once[k].token != token
      {
        assert once[k] == tokens[k];
      }
      DataAccess.FirstIndexIs(once, HasToken(token), i);
      assert Revoked(once, i) == once;
  }

  /** A revoke that reports true has revoked the first token with that string and
    * touched no other token, and that string no longer refreshes at any time. */
  lemma RevokedTokenIsDead(users: seq<User>, tokens: seq<RefreshToken>, token: string, now: int)
    requires RevokeOutcome(tokens, token).0
    ensures var after := RevokeOutcome(tokens, token).1;
      exists i :: 0 <= i < |tokens| && tokens[i].token == token
        && (forall j :: 0 <= j < i ==> tokens[j].token != token)
        && |after| == |tokens| && after[i].isRevoked
        && (forall k :: 0 <= k < |tokens| && k != i ==> after[k] == tokens[k])
    ensures RefreshCheck(users, RevokeOutcome(tokens, token).1, token, now) == Err(Unauthorized(InvalidToken))
  {
    var i := TokenByString(tokens, token).value;
    var after := Revoked(tokens, i);
    assert RevokeOutcome(tokens, token).1 == after;
    forall k | 0 <= k < i
      ensures after[k].token != token
    {
      assert after[k] == tokens[k];
    }
    DataAccess.FirstIndexIs(after, HasToken(token), i);
    assert TokenByString(after, token) == Some(i);
  }

  // ---------------------------------------------------------------------------
  // The service

  class AuthService {
    var users: seq<User>
    var tokens: seq<RefreshToken>
    /** How many times the unit of work saved. */
    var saves: nat
    const crypto: Crypto
    const jwt: (User, int) -> string

    constructor (users: seq<User>, tokens: seq<RefreshToken>, crypto: Crypto, jwt: (User, int) -> string)
      ensures this.users == users && this.tokens == tokens && saves == 0
      ensures this.crypto == crypto && this.jwt == jwt
    {
      this.users := users;
      this.tokens := tokens;
      saves := 0;
      this.crypto := crypto;
      this.jwt := jwt;
    }

    /** Checks the credentials, then stores one new refresh token and saves once. */
    method Login(request: LoginRequest, now: int, seed: TokenSeed) returns (r: Result<LoginResponse, AuthError>)
      modifies this
      ensures users == old(users)
      ensures match LoginCheck(old(users), crypto, request)
        case Err(e) => r == Err(e) && tokens == old(tokens) && saves == old(saves)
        case Ok(i) =>
          && tokens == old(tokens) + [NewToken(seed, old(users)[i].id, now)] && saves == old(saves) + 1
          && r == Ok(Response(jwt, old(users)[i], seed.token, now))
    {
      var found := UserByEmail(users, request.email);
      if found.None? || !crypto.verify(request.password, users[found.value].passwordHash) {
        return Err(Unauthorized(InvalidCredentials));
      }
      var user := users[found.value];
      if !user.isActive {
        return Err(Unauthorized(AccountInactive));
      }
      var refreshToken := NewToken(seed, user.id, now);
      tokens := tokens + [refreshToken];
      saves := saves + 1;
      r := Ok(Response(jwt, user, refreshToken.token, now));
    }

    /** Refuses a taken email; otherwise adds an active user, saves, and logs in. */
    method Register(request: RegisterRequest, now: int, id: nat, seed: TokenSeed) returns (r: Result<LoginResponse, AuthError>)
      modifies this
      ensures UserByEmail(old(users), request.email).Some? ==>
        r == Err(EmailTaken) && users == old(users) && tokens == old(tokens) && saves == old(saves)
      ensures UserByEmail(old(users), request.email).None? ==>
        var all := old(users) + [NewUser(request, id, now, crypto)];
        && users == all
        && match LoginCheck(all, crypto, LoginRequest(request.email, request.password))
          case Err(e) => r == Err(e) && tokens == old(tokens) && saves == old(saves) + 1
          case Ok(i) =>
            && tokens == old(tokens) + [NewToken(seed, all[i].id, now)] && saves == old(saves) + 2
            && r == Ok(Response(jwt, all[i], seed.token, now))
    {
      if UserByEmail(users, request.email).Some? {
        return Err(EmailTaken);
      }
      users := users + [NewUser(request, id, now, crypto)];
      saves := saves + 1;
      r := Login(LoginRequest(request.email, request.password), now, seed);
    }

    /** Rotates a live refresh token: revokes it, stores a new one, saves once. */
    method Refresh(refreshToken: string, now: int, seed: TokenSeed) returns (r: Result<LoginResponse, AuthError>)
      modifies this
      ensures users == old(users)
      ensures match RefreshCheck(old(users), old(tokens), refreshToken, now)
        case Err(e) => r == Err(e) && tokens == old(tokens) && saves == old(saves)
        case Ok((i, j)) =>
          && tokens == Revoked(old(tokens), i) + [NewToken(seed, old(users)[j].id, now)] && saves == old(saves) + 1
          && r == Ok(Response(jwt, old(users)[j], seed.token, now))
    {
      var stored := TokenByString(tokens, refreshToken);
      if stored.None? || tokens[stored.value].isRevoked || tokens[stored.value].expiresAt < now {
        return Err(Unauthorized(InvalidToken));
      }
      var i := stored.value;
      var found := UserById(users, tokens[i].userId);
      if found.None? || !users[found.value].isActive {
        return Err(Unauthorized(UserUnavailable));
      }
      var user := users[found.value];
      tokens := Revoked(tokens, i);
      var newRefreshToken := NewToken(seed, user.id, now);
      tokens := tokens + [newRefreshToken];
      saves := saves + 1;
      r := Ok(Response(jwt, user, newRefreshToken.token, now));
    }

    /** Revokes the token with that string and saves; false when there is none. */
    method Revoke(refreshToken: string) returns (found: bool)
      modifies this
      ensures users == old(users)
      ensures (found, tokens) == RevokeOutcome(old(tokens), refreshToken)
      ensures saves == if found then old(saves) + 1 else old(saves)
    {
      var stored := TokenByString(tokens, refreshToken);
      if stored.None? {
        return false;
      }
      tokens := Revoked(tokens, stored.value);
      saves := saves + 1;
      found := true;
    }
  }
}
