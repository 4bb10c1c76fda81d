/**
 * The server as it runs: stores that are updated in place, and methods that perform lookups,
 * checks, deletions and insertions one after the other. Each method is tied to the answer and
 * the net change that Protocol gives for the same request.
 */
module Server {
  import opened Base
  import opened Model
  import opened Expiry
  import opened Scope
  import opened Protocol
  import opened Decisions

  class ClientStore {
    var clients: map<string, Client>

    constructor ()
      ensures clients == map[]
    {
      clients := map[];
    }

    method Set(client: Client)
      modifies this
      ensures clients == old(clients)[client.id := client]
    {
      clients := clients[client.id := client];
    }
  }

  class UserStore {
    var byID: map<string, User>
    var byUsername: map<string, User>

    ghost function View(): Users
      reads this
    {
      Users(byID, byUsername)
    }

    constructor ()
      ensures View() == Users(map[], map[])
    {
      byID, byUsername := map[], map[];
    }

    method Set(user: User)
      modifies this
      ensures View() == SetUser(old(View()), user)
      ensures old(UsersConsistent(View())) ==> UsersConsistent(View())
    {
      byID := byID[user.id := user];
      byUsername := byUsername[user.username := user];
    }
  }

  class Server {
    const cfg: Config
    const clients: ClientStore
    const users: UserStore
    const codes: AuthCodeStore
    const tokens: TokenStore

    ghost function View(): State
      reads clients, users, codes, tokens
    {
      State(clients.clients, users.View(), codes.codes, tokens.accessTokens, tokens.refreshTokens)
    }

    constructor (cfg: Config, users: UserStore)
      ensures this.cfg == cfg && this.users == users
      ensures fresh(clients) && fresh(codes) && fresh(tokens)
      ensures View() == State(map[], users.View(), map[], map[], map[])
    {
      this.cfg := cfg;
      this.users := users;
      this.clients := new ClientStore();
      this.codes := new AuthCodeStore();
      this.tokens := new TokenStore();
    }

    method RegisterClient(client: Client)
      modifies clients
      ensures View() == old(View()).(clients := old(clients.clients)[client.id := client])
    {
      clients.Set(client);
    }

    // ------------------------------------------------------------ read-only checks

    method ValidateClient(clientID: string, secret: string) returns (ok: bool)
      ensures ok <==> clientID in clients.clients && clients.clients[clientID].secret == secret
    {
      if clientID !in clients.clients { return false; }
      return clients.clients[clientID].secret == secret;
    }

    static method IsGrantTypeAllowed(client: Client, grant: GrantType) returns (ok: bool)
      ensures ok <==> grant in client.grants
    {
      for i := 0 to |client.grants|
        invariant grant !in client.grants[..i]
      {
        if client.grants[i] == grant { return true; }
      }
      assert client.grants[..|client.grants|] == client.grants;
      return false;
    }

    static method ValidateRedirectURI(registered: seq<string>, redirectURI: string) returns (ok: bool)
      ensures ok <==> redirectURI != "" && redirectURI in registered
    {
      if redirectURI == "" { return false; }
      for i := 0 to |registered|
        invariant redirectURI !in registered[..i]
      {
        if redirectURI == registered[i] { return true; }
      }
      assert registered[..|registered|] == registered;
      return false;
    }

    method ValidateAndAuthenticate(clientID: string, secret: string, grant: GrantType)
      returns (r: Result<Client, Error>)
      ensures r == AuthenticateClient(View(), clientID, secret, grant)
      ensures r.Ok? <==> CorrectClient(View(), clientID, secret, grant)
      ensures r == Err(AuthenticationFailed) <==> !HoldsSecret(View(), clientID, secret)
    {
      var ok := ValidateClient(clientID, secret);
      if !ok { return Err(AuthenticationFailed); }
      var client := clients.clients[clientID];
      var allowed := IsGrantTypeAllowed(client, grant);
      if !allowed { return Err(GrantNotAllowed); }
      return Ok(client);
    }

    static method ShouldIncludeIDToken(scope: string, userID: string) returns (ok: bool)
      ensures ok <==> IncludesIdToken(scope, userID)
    {
      var openid := ContainsScope(scope, "openid");
      return openid && userID != "";
    }

    method GenerateIDToken(now: int, clientID: string, userID: string, nonce: string, authTime: int,
                           user: Option<User>, scope: string) returns (token: Token)
      ensures token == IdToken(cfg, now, clientID, userID, nonce, authTime, user, scope)
      ensures token.IdJwt? && token.iss == cfg.issuer && token.sub == userID && token.aud == clientID
      ensures token.iat == Unix(now) && token.exp == token.iat + 3600 && token.authTime == authTime
      ensures token.nonce == if nonce == "" then None else Some(nonce)
    {
      token := IdJwt(cfg.issuer, userID, clientID, Unix(now + ID_TOKEN_EXPIRY), Unix(now), authTime,
                      None, None, None, None);
      if nonce != "" {
        token := token.(nonce := Some(nonce));
      }
      if user.Some? {
        var email := ContainsScope(scope, "email");
        if email && user.value.email != "" {
          token := token.(email := Some(user.value.email));
          token := token.(emailVerified := Some(user.value.email != ""));
        }
        var profile := ContainsScope(scope, "profile");
        if profile && user.value.name != "" {
          token := token.(name := Some(user.value.name));
        }
      }
    }

    // ------------------------------------------------------------------- authorize

    method HandleAuthorize(env: Env, req: AuthorizeRequest) returns (r: Result<AuthorizeResult, AuthorizeError>)
      modifies codes
      ensures var o := Authorize(old(View()), env, req);
        r == o.result && View() == After(old(View()), env.now, o.effect)
    {
      UntouchedChangesNothing(View(), env.now);
      if req.clientID !in clients.clients {
        return Err(AuthorizeError(ClientNotFound, "", ""));
      }
      var client := clients.clients[req.clientID];
      var registered := ValidateRedirectURI(client.redirectURIs, req.redirectURI);
      if !registered {
        return Err(AuthorizeError(RedirectNotRegistered, "", ""));
      }
      var scope := ValidateClientScope(client.scopes, req.scope);
      if scope.None? {
        return Err(AuthorizeError(ScopeNotAllowed, req.redirectURI, req.state));
      }
      if req.challenge == "" {
        return Err(AuthorizeError(ChallengeMissing, req.redirectURI, req.state));
      }
      if req.challengeMethod != "S256" {
        return Err(AuthorizeError(ChallengeMethodNotS256, req.redirectURI, req.state));
      }
      if req.responseType != "code" {
        return Err(AuthorizeError(UnsupportedResponseType, req.redirectURI, req.state));
      }
      if env.random.None? {
        return Err(AuthorizeError(RandomFailed, "", ""));
      }
      var code := Opaque(env.random.value);
      codes.Create(CodeFor(req, scope.value, code), env.now + CODE_EXPIRY);
      return Ok(AuthorizeResult(req.redirectURI, code, req.state));
    }

    // ---------------------------------------------------------------------- grants

    method IssueTokenPair(env: Env, clientID: string, userID: string, scope: string)
      returns (r: Result<TokenResponse, Error>)
      modifies tokens
      ensures !env.signsAccess ==> r == Err(SigningFailed) && View() == old(View())
      ensures env.signsAccess && env.random.None? ==> r == Err(RandomFailed) && View() == old(View())
      ensures env.signsAccess && env.random.Some? ==>
        var access, refresh := AccessToken(cfg, env.now, clientID, userID, scope), Opaque(env.random.value);
        && r == Ok(TokenResponse(access, ACCESS_EXPIRY / SECOND, Some(refresh), scope, None))
        && View() == old(View()).(
             access := old(View()).access[access := AccessEntry(access, clientID, userID, scope, env.now)],
             refresh := old(View()).refresh[refresh := RefreshEntry(access, refresh, clientID, userID, scope, env.now)])
    {
      if !env.signsAccess { return Err(SigningFailed); }
      var accessToken := AccessToken(cfg, env.now, clientID, userID, scope);
      if env.random.None? { return Err(RandomFailed); }
      var refreshToken := Opaque(env.random.value);
      tokens.CreateAccessToken(TokenInfo(accessToken, None, scope, userID, clientID), env.now + ACCESS_EXPIRY);
      tokens.CreateRefreshToken(refreshToken, TokenInfo(accessToken, Some(refreshToken), scope, userID, clientID),
                                env.now + REFRESH_EXPIRY);
      return Ok(TokenResponse(accessToken, ACCESS_EXPIRY / SECOND, Some(refreshToken), scope, None));
    }

    // The end of the three grants that issue a pair: `s` and `effect` are the state the grant found and
    // what it has deleted so far.
    method IssueWithIDToken(ghost s: State, ghost effect: Effect, env: Env,
                            clientID: string, userID: string, scope: string,
                            nonce: string, authTime: int) returns (r: Result<TokenResponse, Error>)
      requires effect.access.stored == None && effect.refresh.stored == None
      requires View() == After(s, env.now, effect)
      modifies tokens
      ensures var o := Issue(cfg, s, env, effect, clientID, userID, scope, nonce, authTime);
        r == o.result && View() == After(s, env.now, o.effect)
    {
      hide IdToken, IncludesIdToken, ScopeSet, After;
      r := IssueTokenPair(env, clientID, userID, scope);
      if env.random.Some? {
        ghost var access, refresh := AccessToken(cfg, env.now, clientID, userID, scope), Opaque(env.random.value);
        StoredLast(s, env.now, effect, access, AccessEntry(access, clientID, userID, scope, env.now),
                   refresh, RefreshEntry(access, refresh, clientID, userID, scope, env.now));
      }
      if r.Err? { return; }
      var wanted := ShouldIncludeIDToken(scope, userID);
      if wanted {
        var user := if userID in users.byID then Some(users.byID[userID]) else None;
        var idToken := GenerateIDToken(env.now, clientID, userID, nonce, authTime, user, scope);
        if env.signsId {
          r := Ok(r.value.(idToken := Some(idToken)));
        }
      }
    }

    method HandleGrantCode(env: Env, req: TokenRequest) returns (r: Result<TokenResponse, Error>)
      modifies codes, tokens
      ensures var o := GrantCode(cfg, old(View()), env, req);
        r == o.result && View() == After(old(View()), env.now, o.effect)
    {
      hide Issue, PermittedScope, PkceMatches, AuthenticateClient;
      ghost var s := View();
      UntouchedChangesNothing(s, env.now);
      var client := ValidateAndAuthenticate(req.clientID, req.clientSecret, AuthorizationCodeGrant);
      if client.Err? { return Err(client.error); }
      var found := codes.Get(req.code, env.now);
      if found.None? { return Err(CodeNotFound); }
      codes.Delete(req.code);
      assert codes.codes == ProbeAndDelete(req.code).Apply(s.codes, env.now);
      var authCode := found.value.value;
      if authCode.clientID != req.clientID { return Err(CodeOfOtherClient); }
      if authCode.redirectURI != req.redirectURI { return Err(RedirectMismatch); }
      if !PkceMatches(cfg, authCode.challenge, authCode.challengeMethod, req.verifier) { return Err(PkceFailed); }
      var scope := ValidateClientScope(client.value.scopes, authCode.scope);
      if scope.None? { return Err(CodeScopeNoLongerPermitted); }
      r := IssueWithIDToken(s, UNTOUCHED.(codes := ProbeAndDelete(req.code)), env, authCode.clientID, authCode.userID,
                            authCode.scope, authCode.nonce, authCode.authTime);
    }

    method HandleGrantPassword(env: Env, req: TokenRequest) returns (r: Result<TokenResponse, Error>)
      modifies tokens
      ensures var o := GrantPassword(cfg, old(View()), env, req);
        r == o.result && View() == After(old(View()), env.now, o.effect)
    {
      hide Issue, PermittedScope, AuthenticateClient, Authenticate;
      UntouchedChangesNothing(View(), env.now);
      var client := ValidateAndAuthenticate(req.clientID, req.clientSecret, PasswordGrant);
      if client.Err? { return Err(client.error); }
      if !cfg.passwordGrantConfigured { return Err(PasswordGrantNotConfigured); }
      var scope := ValidateClientScope(client.value.scopes, req.scope);
      if scope.None? { return Err(ScopeNotAllowed); }
      var userID := Login(req.username, req.password);
      if userID.None? { return Err(InvalidCredentials); }
      r := IssueWithIDToken(View(), UNTOUCHED, env, req.clientID, userID.value, scope.value, "", Unix(env.now));
    }

    /** AuthService.Authenticate. */
    method Login(username: string, password: string) returns (userID: Option<string>)
      ensures userID == Authenticate(cfg, users.View(), username, password)
      ensures userID.Some? <==> CorrectLogin(cfg, users.View(), username, password)
      ensures userID.Some? ==> userID.value == users.byUsername[username].id
    {
      if username !in users.byUsername { return None; }
      var user := users.byUsername[username];
      if !cfg.passwordMatches(user.passwordHash, password) { return None; }
      return Some(user.id);
    }

    method HandleGrantClientCredentials(env: Env, req: TokenRequest) returns (r: Result<TokenResponse, Error>)
      modifies tokens
      ensures var o := GrantClientCredentials(cfg, old(View()), env, req);
        r == o.result && View() == After(old(View()), env.now, o.effect)
    {
      hide PermittedScope, AuthenticateClient;
      ghost var s := View();
      UntouchedChangesNothing(s, env.now);
      var client := ValidateAndAuthenticate(req.clientID, req.clientSecret, ClientCredentialsGrant);
      if client.Err? { return Err(client.error); }
      var scope := ValidateClientScope(client.value.scopes, req.scope);
      if scope.None? { return Err(ScopeNotAllowed); }
      var openid := ContainsScope(scope.value, "openid");
      if openid { return Err(OpenidForClientCredentials); }
      if !env.signsAccess { return Err(SigningFailed); }
      var accessToken := AccessToken(cfg, env.now, req.clientID, "", scope.value);
      tokens.CreateAccessToken(TokenInfo(accessToken, None, scope.value, "", req.clientID), env.now + ACCESS_EXPIRY);
      return Ok(TokenResponse(accessToken, ACCESS_EXPIRY / SECOND, None, scope.value, None));
    }

    method HandleGrantRefresh(env: Env, req: TokenRequest) returns (r: Result<TokenResponse, Error>)
      modifies tokens
      ensures var o := GrantRefresh(cfg, old(View()), env, req);
        r == o.result && View() == After(old(View()), env.now, o.effect)
    {
      hide Issue, PermittedScope, Narrowed, AuthenticateClient, CorrectClient, HoldsSecret, ScopeSet, Join, Fields;
      ghost var s := View();
      UntouchedChangesNothing(s, env.now);
      var client := ValidateAndAuthenticate(req.clientID, req.clientSecret, RefreshTokenGrant);
      if client.Err? { return Err(client.error); }
      var found := tokens.GetRefreshToken(req.refreshToken, env.now);
      if found.None? { return Err(RefreshTokenNotFound); }
      var prior := found.value.value;
      if prior.clientID != req.clientID { return Err(RefreshTokenOfOtherClient); }
      var asked := req.scope;
      if asked == "" { asked := prior.scope; }
      var scope := ValidateClientScope(client.value.scopes, asked);
      if scope.None? { return Err(ScopeNotAllowed); }
      if req.scope != "" {
        var narrowed := IsScopeNarrowed(scope.value, prior.scope);
        if !narrowed { return Err(ScopeExceedsGrant); }
      }
      tokens.DeleteRefreshToken(req.refreshToken);
      tokens.DeleteAccessToken(prior.accessToken);
      assert tokens.refreshTokens == ProbeAndDelete(req.refreshToken).Apply(s.refresh, env.now);
      ghost var unpaired: Change<TokenInfo> := Change({}, {prior.accessToken}, None);
      assert tokens.accessTokens == unpaired.Apply(s.access, env.now);
      r := IssueWithIDToken(s, UNTOUCHED.(refresh := ProbeAndDelete(req.refreshToken), access := unpaired), env,
                            prior.clientID, prior.userID, scope.value, "", Unix(env.now));
    }

    method HandleToken(env: Env, req: TokenRequest) returns (r: Result<TokenResponse, Error>)
      modifies codes, tokens
      ensures var o := GrantToken(cfg, old(View()), env, req);
        r == o.result && View() == After(old(View()), env.now, o.effect)
    {
      hide GrantCode, GrantPassword, GrantClientCredentials, GrantRefresh;
      match req.grantType {
        case AuthorizationCodeGrant => r := HandleGrantCode(env, req);
        case PasswordGrant => r := HandleGrantPassword(env, req);
        case ClientCredentialsGrant => r := HandleGrantClientCredentials(env, req);
        case RefreshTokenGrant => r := HandleGrantRefresh(env, req);
        case OtherGrant(_) =>
          UntouchedChangesNothing(View(), env.now);
          r := Err(UnsupportedGrantType);
      }
    }

    // ----------------------------------------------------------- revocation and use

    method RevokeToken(now: int, token: Token, hint: Hint, clientID: string) returns (r: Result<(), Error>)
      modifies tokens
      ensures var o := Revoke(old(View()), now, token, hint, clientID);
        r == o.result && View() == After(old(View()), now, o.effect)
    {
      ghost var s := View();
      UntouchedChangesNothing(s, now);
      if clientID !in clients.clients { return Err(ClientNotFound); }
      match hint {
        case RefreshTokenHint =>
          var found := tokens.GetRefreshToken(token, now);
          if found.Some? {
            if found.value.value.clientID != clientID { return Err(TokenOfOtherClient); }
            tokens.DeleteRefreshToken(token);
            tokens.DeleteAccessToken(found.value.value.accessToken);
            DeletionsAgree(s, now, token, found.value.value.accessToken);
          }
        case AccessTokenHint =>
          var found := tokens.GetAccessToken(token, now);
          if found.Some? {
            if found.value.value.clientID != clientID { return Err(TokenOfOtherClient); }
            tokens.DeleteAccessToken(token);
            DeletionsAgree(s, now, token, token);
          }
        case OtherHint(_) =>
          var found := tokens.GetAccessToken(token, now);
          if found.Some? && found.value.value.clientID == clientID {
            tokens.DeleteAccessToken(token);
            DeletionsAgree(s, now, token, token);
            return Ok(());
          }
          var rfound := tokens.GetRefreshToken(token, now);
          if rfound.Some? && rfound.value.value.clientID == clientID {
            tokens.DeleteRefreshToken(token);
            tokens.DeleteAccessToken(rfound.value.value.accessToken);
            DeletionsAgree(s, now, token, rfound.value.value.accessToken);
            return Ok(());
          }
      }
      return Ok(());
    }

    method ValidateBearerToken(now: int, token: Token) returns (r: Result<TokenInfo, Error>)
      modifies tokens`accessTokens
      ensures var o := Bearer(old(View()), now, token);
        r == o.result && View() == After(old(View()), now, o.effect)
    {
      UntouchedChangesNothing(View(), now);
      if !AcceptedJwt(token, now) { return Err(InvalidToken); }
      var found := tokens.GetAccessToken(token, now);
      if found.None? { return Err(TokenNotFoundOrRevoked); }
      return Ok(found.value.value);
    }

    /** UserInfoService.GetUserInfo. */
    method GetUserInfo(now: int, token: Token) returns (r: Result<UserInfo, Error>)
      modifies tokens`accessTokens
      ensures var o := UserInfoFor(old(View()), now, token);
        r == o.result && View() == After(old(View()), now, o.effect)
    {
      var bearer := ValidateBearerToken(now, token);
      if bearer.Err? { return Err(bearer.error); }
      var scope, userID := bearer.value.scope, bearer.value.userID;
      var openid := ContainsScope(scope, "openid");
      if !openid { return Err(OpenidRequired); }
      if userID !in users.byID { return Err(UserNotFound); }
      var user := users.byID[userID];
      var info := UserInfo(userID, "", "", false);
      var profile := ContainsScope(scope, "profile");
      if profile { info := info.(name := user.name); }
      var email := ContainsScope(scope, "email");
      if email {
        info := info.(email := user.email);
        info := info.(emailVerified := user.email != "");
      }
      return Ok(info);
    }
  }

  // Records stored after some deletions.
  lemma StoredLast(s: State, now: int, effect: Effect, access: Token, accessEntry: Entry<TokenInfo>,
                   refresh: Token, refreshEntry: Entry<TokenInfo>)
    requires effect.access.stored == None && effect.refresh.stored == None
    ensures var before := After(s, now, effect);
      After(s, now, effect.(access := effect.access.(stored := Some((access, accessEntry))),
                            refresh := effect.refresh.(stored := Some((refresh, refreshEntry)))))
      == before.(access := before.access[access := accessEntry], refresh := before.refresh[refresh := refreshEntry])
      && before.users == s.users
  {}

  lemma UntouchedChangesNothing(s: State, now: int)
    ensures After(s, now, UNTOUCHED) == s
  {
    assert NoChange<AuthCode>().Apply(s.codes, now) == s.codes;
    assert NoChange<TokenInfo>().Apply(s.access, now) == s.access;
    assert NoChange<TokenInfo>().Apply(s.refresh, now) == s.refresh;
  }

  // Looking a key up and then deleting keys leaves what the recorded change says.
  lemma DeletionsAgree(s: State, now: int, token: Token, access: Token)
    ensures Probe(token).Apply(s.refresh, now) - {token} == ProbeAndDelete(token).Apply(s.refresh, now)
    ensures Probe(token).Apply(s.access, now) - {token} == ProbeAndDelete(token).Apply(s.access, now)
    ensures s.access - {access} == Change({}, {access}, None).Apply(s.access, now)
    ensures Probe(token).Apply(s.access, now) - {access} == Change({token}, {access}, None).Apply(s.access, now)
  {}
}
