/**
 * What each request answers and changes, as a function of the state it finds. Every decision is
 * taken on live lookups; the change is collected as an effect, in which explicit deletions are
 * kept apart from the deletion of expired records that lookups happen to meet.
 */
module Protocol {
  import opened Base
  import opened Model
  import opened Expiry
  import opened Scope

  datatype Effect = Effect(codes: Change<AuthCode>, access: Change<TokenInfo>, refresh: Change<TokenInfo>)

  datatype Outcome<+R> = Outcome(effect: Effect, result: R)

  const UNTOUCHED: Effect := Effect(NoChange(), NoChange(), NoChange())

  function After(s: State, now: int, effect: Effect): State {
    s.(codes := effect.codes.Apply(s.codes, now),
       access := effect.access.Apply(s.access, now),
       refresh := effect.refresh.Apply(s.refresh, now))
  }

  /** The state afterwards if lookups left expired records in place. */
  function AfterKeepingExpired(s: State, effect: Effect): State {
    s.(codes := effect.codes.ApplyKeepingExpired(s.codes),
       access := effect.access.ApplyKeepingExpired(s.access),
       refresh := effect.refresh.ApplyKeepingExpired(s.refresh))
  }

  // ------------------------------------------------------------ token generation

  function AccessToken(cfg: Config, now: int, clientID: string, userID: string, scope: string): Token {
    AccessJwt(cfg.issuer, userID, clientID, Unix(now + ACCESS_EXPIRY), Unix(now), scope)
  }

  function IdToken(cfg: Config, now: int, clientID: string, userID: string, nonce: string, authTime: int,
                   user: Option<User>, scope: string): Token {
    var showsEmail := user.Some? && "email" in ScopeSet(scope) && user.value.email != "";
    var showsName := user.Some? && "profile" in ScopeSet(scope) && user.value.name != "";
    IdJwt(cfg.issuer, userID, clientID, Unix(now + ID_TOKEN_EXPIRY), Unix(now), authTime,
          if nonce != "" then Some(nonce) else None,
          if showsEmail then Some(user.value.email) else None,
          if showsEmail then Some(true) else None,
          if showsName then Some(user.value.name) else None)
  }

  /** A token signed by this server that has not expired. The issuer is not compared, nor is the kind of token. */
  predicate AcceptedJwt(token: Token, now: int) {
    !token.Opaque? && now < token.exp * SECOND
  }

  /** VerifyPKCE. */
  predicate PkceMatches(cfg: Config, challenge: string, challengeMethod: string, verifier: string) {
    challenge == "" || (challengeMethod == "S256" && cfg.s256(verifier) == challenge)
  }

  // --------------------------------------------------------------------- users

  function UserByID(users: Users, id: string): Option<User> {
    if id in users.byID then Some(users.byID[id]) else None
  }

  function Authenticate(cfg: Config, users: Users, username: string, password: string): Option<string> {
    if username in users.byUsername && cfg.passwordMatches(users.byUsername[username].passwordHash, password)
    then Some(users.byUsername[username].id)
    else None
  }

  function SetUser(users: Users, user: User): Users {
    Users(users.byID[user.id := user], users.byUsername[user.username := user])
  }

  /** Every user that can log in is also found by ID, under that ID. */
  ghost predicate UsersConsistent(users: Users) {
    && (forall name :: name in users.byUsername ==> users.byUsername[name].id in users.byID)
    && (forall id :: id in users.byID ==> users.byID[id].id == id)
  }

  // ----------------------------------------------------------------- authorize

  predicate RedirectRegistered(client: Client, redirectURI: string) {
    redirectURI != "" && redirectURI in client.redirectURIs
  }

  function Authorize(s: State, env: Env, req: AuthorizeRequest): Outcome<Result<AuthorizeResult, AuthorizeError>> {
    if req.clientID !in s.clients then
      Outcome(UNTOUCHED, Err(AuthorizeError(ClientNotFound, "", "")))
    else
      var client := s.clients[req.clientID];
      if !RedirectRegistered(client, req.redirectURI) then
        Outcome(UNTOUCHED, Err(AuthorizeError(RedirectNotRegistered, "", "")))
      else
        var scope := PermittedScope(client.scopes, req.scope);
        var refuse := (e: Error) => Outcome(UNTOUCHED, Err(AuthorizeError(e, req.redirectURI, req.state)));
        if scope.None? then refuse(ScopeNotAllowed)
        else if req.challenge == "" then refuse(ChallengeMissing)
        else if req.challengeMethod != "S256" then refuse(ChallengeMethodNotS256)
        else if req.responseType != "code" then refuse(UnsupportedResponseType)
        else if env.random.None? then Outcome(UNTOUCHED, Err(AuthorizeError(RandomFailed, "", "")))
        else
          var code := Opaque(env.random.value);
          var stored := Some((code, Entry(CodeFor(req, scope.value, code), env.now + CODE_EXPIRY)));
          Outcome(UNTOUCHED.(codes := NoChange<AuthCode>().(stored := stored)),
                  Ok(AuthorizeResult(req.redirectURI, code, req.state)))
  }

  function CodeFor(req: AuthorizeRequest, scope: string, code: Token): AuthCode {
    AuthCode(code, req.clientID, req.userID, req.redirectURI, scope, req.nonce,
             req.challenge, req.challengeMethod, req.authTime)
  }

  // -------------------------------------------------------------------- grants

  function AuthenticateClient(s: State, clientID: string, secret: string, grant: GrantType): Result<Client, Error> {
    if clientID !in s.clients || s.clients[clientID].secret != secret then Err(AuthenticationFailed)
    else if grant !in s.clients[clientID].grants then Err(GrantNotAllowed)
    else Ok(s.clients[clientID])
  }

  predicate IncludesIdToken(scope: string, userID: string) {
    "openid" in ScopeSet(scope) && userID != ""
  }

  function AccessEntry(accessToken: Token, clientID: string, userID: string, scope: string,
                       now: int): Entry<TokenInfo>
  {
    Entry(TokenInfo(accessToken, None, scope, userID, clientID), now + ACCESS_EXPIRY)
  }

  function RefreshEntry(accessToken: Token, refreshToken: Token, clientID: string, userID: string, scope: string,
                        now: int): Entry<TokenInfo>
  {
    Entry(TokenInfo(accessToken, Some(refreshToken), scope, userID, clientID), now + REFRESH_EXPIRY)
  }

  /**
   * Issues a token pair, after the deletions already in `effect`, with an ID token where the scope asks
   * for one. When the pair cannot be made those deletions stay and nothing is stored.
   */
  function Issue(cfg: Config, s: State, env: Env, effect: Effect, clientID: string, userID: string, scope: string,
                 nonce: string, authTime: int): Outcome<Result<TokenResponse, Error>> {
    if !env.signsAccess then Outcome(effect, Err(SigningFailed))
    else if env.random.None? then Outcome(effect, Err(RandomFailed))
    else
      var access := AccessToken(cfg, env.now, clientID, userID, scope);
      var refresh := Opaque(env.random.value);
      var id := if IncludesIdToken(scope, userID) && env.signsId
                then Some(IdToken(cfg, env.now, clientID, userID, nonce, authTime, UserByID(s.users, userID), scope))
                else None;
      Outcome(
        effect.(access := effect.access.(
                  stored := Some((access, AccessEntry(access, clientID, userID, scope, env.now)))),
                refresh := effect.refresh.(
                  stored := Some((refresh, RefreshEntry(access, refresh, clientID, userID, scope, env.now))))),
        Ok(TokenResponse(access, ACCESS_EXPIRY / SECOND, Some(refresh), scope, id)))
  }

  function GrantCode(cfg: Config, s: State, env: Env, req: TokenRequest): Outcome<Result<TokenResponse, Error>> {
    var client := AuthenticateClient(s, req.clientID, req.clientSecret, AuthorizationCodeGrant);
    if client.Err? then Outcome(UNTOUCHED, Err(client.error))
    else
      var found := Find(s.codes, req.code, env.now);
      if found.None? then Outcome(UNTOUCHED.(codes := Probe(req.code)), Err(CodeNotFound))
      else
        var code := found.value.value;
        var used := UNTOUCHED.(codes := ProbeAndDelete(req.code));
        if code.clientID != req.clientID then Outcome(used, Err(CodeOfOtherClient))
        else if code.redirectURI != req.redirectURI then Outcome(used, Err(RedirectMismatch))
        else if !PkceMatches(cfg, code.challenge, code.challengeMethod, req.verifier) then
          Outcome(used, Err(PkceFailed))
        else if PermittedScope(client.value.scopes, code.scope).None? then
          Outcome(used, Err(CodeScopeNoLongerPermitted))
        else Issue(cfg, s, env, used, code.clientID, code.userID, code.scope, code.nonce, code.authTime)
  }

  function GrantPassword(cfg: Config, s: State, env: Env, req: TokenRequest): Outcome<Result<TokenResponse, Error>> {
    var client := AuthenticateClient(s, req.clientID, req.clientSecret, PasswordGrant);
    if client.Err? then Outcome(UNTOUCHED, Err(client.error))
    else if !cfg.passwordGrantConfigured then Outcome(UNTOUCHED, Err(PasswordGrantNotConfigured))
    else
      var scope := PermittedScope(client.value.scopes, req.scope);
      if scope.None? then Outcome(UNTOUCHED, Err(ScopeNotAllowed))
      else
        var userID := Authenticate(cfg, s.users, req.username, req.password);
        if userID.None? then Outcome(UNTOUCHED, Err(InvalidCredentials))
        else Issue(cfg, s, env, UNTOUCHED, req.clientID, userID.value, scope.value, "", Unix(env.now))
  }

  function GrantClientCredentials(cfg: Config, s: State, env: Env,
                                  req: TokenRequest): Outcome<Result<TokenResponse, Error>>
  {
    var client := AuthenticateClient(s, req.clientID, req.clientSecret, ClientCredentialsGrant);
    if client.Err? then Outcome(UNTOUCHED, Err(client.error))
    else
      var scope := PermittedScope(client.value.scopes, req.scope);
      if scope.None? then Outcome(UNTOUCHED, Err(ScopeNotAllowed))
      else if "openid" in ScopeSet(scope.value) then Outcome(UNTOUCHED, Err(OpenidForClientCredentials))
      else if !env.signsAccess then Outcome(UNTOUCHED, Err(SigningFailed))
      else
        var access := AccessToken(cfg, env.now, req.clientID, "", scope.value);
        var stored := Some((access, AccessEntry(access, req.clientID, "", scope.value, env.now)));
        Outcome(UNTOUCHED.(access := NoChange<TokenInfo>().(stored := stored)),
                Ok(TokenResponse(access, ACCESS_EXPIRY / SECOND, None, scope.value, None)))
  }

  /** The scope decision of a refresh: what is granted when `asked` is requested and `original` was granted. */
  function RefreshedScope(registered: seq<string>, asked: string, original: string): Result<string, Error> {
    var scope := PermittedScope(registered, if asked == "" then original else asked);
    if scope.None? then Err(ScopeNotAllowed)
    else if asked != "" && !Narrowed(scope.value, original) then Err(ScopeExceedsGrant)
    else Ok(scope.value)
  }

  function GrantRefresh(cfg: Config, s: State, env: Env, req: TokenRequest): Outcome<Result<TokenResponse, Error>> {
    var client := AuthenticateClient(s, req.clientID, req.clientSecret, RefreshTokenGrant);
    if client.Err? then Outcome(UNTOUCHED, Err(client.error))
    else
      var found := Find(s.refresh, req.refreshToken, env.now);
      var looked := UNTOUCHED.(refresh := Probe(req.refreshToken));
      if found.None? then Outcome(looked, Err(RefreshTokenNotFound))
      else
        var prior := found.value.value;
        var scope := RefreshedScope(client.value.scopes, req.scope, prior.scope);
        if prior.clientID != req.clientID then Outcome(looked, Err(RefreshTokenOfOtherClient))
        else if scope.Err? then Outcome(looked, Err(scope.error))
        else
          var rotated := UNTOUCHED.(refresh := ProbeAndDelete(req.refreshToken),
                                    access := Change({}, {prior.accessToken}, None));
          Issue(cfg, s, env, rotated, prior.clientID, prior.userID, scope.value, "", Unix(env.now))
  }

  function GrantToken(cfg: Config, s: State, env: Env, req: TokenRequest): Outcome<Result<TokenResponse, Error>> {
    match req.grantType
    case AuthorizationCodeGrant => GrantCode(cfg, s, env, req)
    case PasswordGrant => GrantPassword(cfg, s, env, req)
    case ClientCredentialsGrant => GrantClientCredentials(cfg, s, env, req)
    case RefreshTokenGrant => GrantRefresh(cfg, s, env, req)
    case OtherGrant(_) => Outcome(UNTOUCHED, Err(UnsupportedGrantType))
  }

  // ------------------------------------------------------- revocation and use

  function Revoke(s: State, now: int, token: Token, hint: Hint, clientID: string): Outcome<Result<(), Error>> {
    if clientID !in s.clients then Outcome(UNTOUCHED, Err(ClientNotFound))
    else
      var access := Find(s.access, token, now);
      var refresh := Find(s.refresh, token, now);
      match hint
      case RefreshTokenHint =>
        if refresh.None? then Outcome(UNTOUCHED.(refresh := Probe(token)), Ok(()))
        else if refresh.value.value.clientID != clientID then
          Outcome(UNTOUCHED.(refresh := Probe(token)), Err(TokenOfOtherClient))
        else Outcome(UNTOUCHED.(refresh := ProbeAndDelete(token),
                                      access := Change({}, {refresh.value.value.accessToken}, None)), Ok(()))
      case AccessTokenHint =>
        if access.None? then Outcome(UNTOUCHED.(access := Probe(token)), Ok(()))
        else if access.value.value.clientID != clientID then
          Outcome(UNTOUCHED.(access := Probe(token)), Err(TokenOfOtherClient))
        else Outcome(UNTOUCHED.(access := ProbeAndDelete(token)), Ok(()))
      case OtherHint(_) =>
        if access.Some? && access.value.value.clientID == clientID then
          Outcome(UNTOUCHED.(access := ProbeAndDelete(token)), Ok(()))
        else if refresh.Some? && refresh.value.value.clientID == clientID then
          Outcome(UNTOUCHED.(refresh := ProbeAndDelete(token),
                                    access := Change({token}, {refresh.value.value.accessToken}, None)), Ok(()))
        else Outcome(UNTOUCHED.(access := Probe(token), refresh := Probe(token)), Ok(()))
  }

  function Bearer(s: State, now: int, token: Token): Outcome<Result<TokenInfo, Error>> {
    if !AcceptedJwt(token, now) then Outcome(UNTOUCHED, Err(InvalidToken))
    else
      var found := Find(s.access, token, now);
      Outcome(UNTOUCHED.(access := Probe(token)),
              if found.Some? then Ok(found.value.value) else Err(TokenNotFoundOrRevoked))
  }

  function UserInfoFor(s: State, now: int, token: Token): Outcome<Result<UserInfo, Error>> {
    var Outcome(effect, bearer) := Bearer(s, now, token);
    Outcome(effect,
      if bearer.Err? then Err(bearer.error)
      else
        var scopes, userID := ScopeSet(bearer.value.scope), bearer.value.userID;
        if "openid" !in scopes then Err(OpenidRequired)
        else if userID !in s.users.byID then Err(UserNotFound)
        else
          var user := s.users.byID[userID];
          Ok(UserInfo(userID,
                      if "profile" in scopes then user.name else "",
                      if "email" in scopes then user.email else "",
                      "email" in scopes && user.email != "")))
  }

  // ------------------------------------------------------------- one request

  datatype Op =
    | AuthorizeOp(authorize: AuthorizeRequest)
    | TokenOp(request: TokenRequest)
    | RevokeOp(token: Token, hint: Hint, clientID: string)
    | BearerOp(bearer: Token)
    | UserInfoOp(bearer: Token)

  datatype Answer =
    | AuthorizeAnswer(authorized: Result<AuthorizeResult, AuthorizeError>)
    | TokenAnswer(issued: Result<TokenResponse, Error>)
    | RevokeAnswer(revoked: Result<(), Error>)
    | BearerAnswer(info: Result<TokenInfo, Error>)
    | UserInfoAnswer(user: Result<UserInfo, Error>)

  function Handle(cfg: Config, s: State, env: Env, op: Op): Outcome<Answer> {
    match op
    case AuthorizeOp(req) => var o := Authorize(s, env, req); Outcome(o.effect, AuthorizeAnswer(o.result))
    case TokenOp(req) => var o := GrantToken(cfg, s, env, req); Outcome(o.effect, TokenAnswer(o.result))
    case RevokeOp(token, hint, clientID) =>
      var o := Revoke(s, env.now, token, hint, clientID);
      Outcome(o.effect, RevokeAnswer(o.result))
    case BearerOp(token) => var o := Bearer(s, env.now, token); Outcome(o.effect, BearerAnswer(o.result))
    case UserInfoOp(token) => var o := UserInfoFor(s, env.now, token); Outcome(o.effect, UserInfoAnswer(o.result))
  }
}
