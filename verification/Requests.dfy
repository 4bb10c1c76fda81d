/** For each kind of request: exactly when it succeeds, and what a failure costs. */
module Requests {
  import opened Base
  import opened Model
  import opened Expiry
  import opened Scope
  import opened Protocol
  import opened World
  import opened Lineage
  import opened Access
  import opened Decisions
  import opened Revocation
  import Codes
  import Registration

  predicate CanMakePair(env: Env) {
    env.signsAccess && env.random.Some?
  }

  // --------------------------------------------- which answer is given exactly when

  /**
   * A code is handed out exactly for a registered client and redirect URI, a scope it may have and an S256
   * challenge; each error is answered exactly when its check is the first to fail.
   */
  lemma AuthorizedExactlyWhen(s: State, env: Env, req: AuthorizeRequest)
    ensures var r := Authorize(s, env, req).result;
      var error := if r.Err? then Some(r.error.error) else None;
      var known := req.clientID in s.clients;
      var landed := known && req.redirectURI != "" && req.redirectURI in s.clients[req.clientID].redirectURIs;
      var scoped := landed && MayHave(s.clients[req.clientID].scopes, req.scope);
      var hashed := scoped && req.challenge != "" && req.challengeMethod == "S256";
      && (error == Some(ClientNotFound) <==> !known)
      && (error == Some(RedirectNotRegistered) <==> known && !landed)
      && (error == Some(ScopeNotAllowed) <==> landed && !scoped)
      && (error == Some(ChallengeMissing) <==> scoped && req.challenge == "")
      && (error == Some(ChallengeMethodNotS256) <==> scoped && req.challenge != "" && req.challengeMethod != "S256")
      && (error == Some(UnsupportedResponseType) <==> hashed && req.responseType != "code")
      && (error == Some(RandomFailed) <==> hashed && req.responseType == "code" && env.random.None?)
      && (r.Ok? <==> hashed && req.responseType == "code" && env.random.Some?)
      && (r.Ok? ==> r.value.redirectURI == req.redirectURI && r.value.state == req.state)
  {
    hide PermittedScope, MayHave;
    if req.clientID in s.clients { PermittedExactly(s.clients[req.clientID].scopes, req.scope); }
  }

  /** An authorize error is sent through the redirect URI only if that URI is registered to the client. */
  lemma ErrorsRedirectOnlyToRegistered(s: State, env: Env, req: AuthorizeRequest)
    requires Authorize(s, env, req).result.Err?
    ensures var e := Authorize(s, env, req).result.error;
      && Authorize(s, env, req).effect == UNTOUCHED
      && (e.redirectURI != "" ==>
            && e.redirectURI == req.redirectURI && e.state == req.state
            && req.clientID in s.clients && req.redirectURI in s.clients[req.clientID].redirectURIs)
      && (e.error.ScopeNotAllowed? || e.error.ChallengeMissing?
          || e.error.ChallengeMethodNotS256? || e.error.UnsupportedResponseType?
          <==> e.redirectURI != "")
  {}

  /**
   * For each of the four grants, authentication is refused exactly when the client is not registered or its
   * secret is another one, and the grant exactly when the client is authentic but may not use it. Exactly
   * the requests for any other grant are told that it is not supported, whoever makes them.
   */
  lemma AuthenticatedExactlyWhen(cfg: Config, s: State, env: Env, req: TokenRequest)
    ensures var r := GrantToken(cfg, s, env, req).result;
      var supported := !req.grantType.OtherGrant?;
      var authentic := req.clientID in s.clients && s.clients[req.clientID].secret == req.clientSecret;
      && (r == Err(UnsupportedGrantType) <==> !supported)
      && (r == Err(AuthenticationFailed) <==> supported && !authentic)
      && (r == Err(GrantNotAllowed) <==>
            supported && authentic && req.grantType !in s.clients[req.clientID].grants)
  {
    hide PermittedScope, Authenticate, IdToken, IncludesIdToken, RefreshedScope, PkceMatches, Find, ScopeSet;
    RefreshScopeErrors();
  }

  lemma RefreshScopeErrors()
    ensures forall registered, asked, original :: RefreshedScope(registered, asked, original).Err? ==>
      RefreshedScope(registered, asked, original).error in {ScopeNotAllowed, ScopeExceedsGrant}
  {
    hide PermittedScope, Narrowed;
  }

  /** Whoever gets a token has given the secret of a registered client that may use the grant. */
  lemma IssuedToAuthentic(run: Run, i: nat)
    requires run.Valid() && i < run.Length() && run.Issued(i).Some?
    ensures var req, clients := run.Request(i), run.Server(i).clients;
      && req.clientID in clients && clients[req.clientID].secret == req.clientSecret
      && req.grantType in clients[req.clientID].grants
  {
    hide NextServer;
    ServerStep(run, i);
    IssuedToAuthenticated(run.cfg, run.Server(i), run.EventAt(i));
  }

  /**
   * The password grant succeeds exactly when the password matches the stored hash of the user of that name,
   * for an authentic client that may use the grant and a scope it may have; the token is for that user.
   */
  lemma PasswordExactlyWhen(cfg: Config, s: State, env: Env, req: TokenRequest)
    requires req.grantType == PasswordGrant
    ensures var o := GrantToken(cfg, s, env, req);
      var r := o.result;
      var allowed := CorrectClient(s, req.clientID, req.clientSecret, PasswordGrant);
      var scoped := allowed && cfg.passwordGrantConfigured && MayHave(s.clients[req.clientID].scopes, req.scope);
      var loggedIn := scoped && CorrectLogin(cfg, s.users, req.username, req.password);
      && (r == Err(PasswordGrantNotConfigured) <==> allowed && !cfg.passwordGrantConfigured)
      && (r == Err(ScopeNotAllowed) <==> allowed && cfg.passwordGrantConfigured && !scoped)
      && (r == Err(InvalidCredentials) <==> scoped && !loggedIn)
      && (r == Err(SigningFailed) <==> loggedIn && !env.signsAccess)
      && (r == Err(RandomFailed) <==> loggedIn && env.signsAccess && env.random.None?)
      && (r.Ok? <==> loggedIn && CanMakePair(env))
      && (r.Ok? ==>
            && r.value.scope == ScopeFor(s.clients[req.clientID].scopes, req.scope)
            && r.value.accessToken.AccessJwt? && r.value.accessToken.sub == s.users.byUsername[req.username].id)
      && (r.Err? ==> o.effect == UNTOUCHED)
  {
    hide PermittedScope, Authenticate, IdToken, IncludesIdToken, MayHave;
    AuthenticatesIff(s, req.clientID, req.clientSecret, PasswordGrant);
    LogsInIff(cfg, s.users, req.username, req.password);
    if req.clientID in s.clients { PermittedExactly(s.clients[req.clientID].scopes, req.scope); }
  }

  /**
   * The client_credentials grant succeeds exactly for an authentic client that may use it and a scope it may
   * have that does not hold openid, and speaks for no user.
   */
  lemma ClientCredentialsExactlyWhen(cfg: Config, s: State, env: Env, req: TokenRequest)
    requires req.grantType == ClientCredentialsGrant
    ensures var o := GrantToken(cfg, s, env, req);
      var r := o.result;
      var allowed := CorrectClient(s, req.clientID, req.clientSecret, ClientCredentialsGrant);
      var scoped := allowed && MayHave(s.clients[req.clientID].scopes, req.scope);
      var scope := if allowed then ScopeFor(s.clients[req.clientID].scopes, req.scope) else "";
      && (r == Err(ScopeNotAllowed) <==> allowed && !scoped)
      && (r == Err(OpenidForClientCredentials) <==> scoped && "openid" in ScopeSet(scope))
      && (r == Err(SigningFailed) <==> scoped && "openid" !in ScopeSet(scope) && !env.signsAccess)
      && (r.Ok? <==> scoped && "openid" !in ScopeSet(scope) && env.signsAccess)
      && (r.Ok? ==>
            && r.value.scope == scope
            && r.value.accessToken == AccessToken(cfg, env.now, req.clientID, "", scope)
            && r.value.refreshToken == None && r.value.idToken == None)
      && (r.Err? ==> o.effect == UNTOUCHED)
  {
    hide PermittedScope, ScopeSet, MayHave;
    AuthenticatesIff(s, req.clientID, req.clientSecret, ClientCredentialsGrant);
    if req.clientID in s.clients { PermittedExactly(s.clients[req.clientID].scopes, req.scope); }
  }

  /**
   * The code grant succeeds exactly for an authentic client that may use it, its own live code, the redirect
   * URI and the verifier the code was made for, and a scope it may still have.
   */
  lemma CodeExactlyWhen(cfg: Config, s: State, env: Env, req: TokenRequest)
    requires req.grantType == AuthorizationCodeGrant
    ensures var r := GrantToken(cfg, s, env, req).result;
      var allowed := CorrectClient(s, req.clientID, req.clientSecret, AuthorizationCodeGrant);
      var found := allowed && Find(s.codes, req.code, env.now).Some?;
      if !found then
        r == Err(CodeNotFound) <==> allowed
      else
        var code := s.codes[req.code].value;
        var own := code.clientID == req.clientID;
        var landed := own && code.redirectURI == req.redirectURI;
        var hashed := landed
          && (code.challenge == "" || (code.challengeMethod == "S256" && cfg.s256(req.verifier) == code.challenge));
        var scoped := hashed && MayHave(s.clients[req.clientID].scopes, code.scope);
        && (r == Err(CodeOfOtherClient) <==> !own)
        && (r == Err(RedirectMismatch) <==> own && !landed)
        && (r == Err(PkceFailed) <==> landed && !hashed)
        && (r == Err(CodeScopeNoLongerPermitted) <==> hashed && !scoped)
        && (r == Err(SigningFailed) <==> scoped && !env.signsAccess)
        && (r == Err(RandomFailed) <==> scoped && env.signsAccess && env.random.None?)
        && (r.Ok? <==> scoped && CanMakePair(env))
        && (r.Ok? ==> r.value.scope == code.scope)
  {
    hide PermittedScope, IdToken, IncludesIdToken, MayHave;
    AuthenticatesIff(s, req.clientID, req.clientSecret, AuthorizationCodeGrant);
    if req.clientID in s.clients && req.code in s.codes {
      PermittedExactly(s.clients[req.clientID].scopes, s.codes[req.code].value.scope);
    }
  }

  /**
   * All checks of a refresh hold: the client may use the grant, presents its own live token, and may have the
   * scope.
   */
  ghost predicate RefreshAccepted(s: State, now: int, req: TokenRequest) {
    && CorrectClient(s, req.clientID, req.clientSecret, RefreshTokenGrant)
    && Find(s.refresh, req.refreshToken, now).Some?
    && var prior := s.refresh[req.refreshToken].value;
    && prior.clientID == req.clientID
    && MayRefresh(s.clients[req.clientID].scopes, req.scope, prior.scope)
  }

  /** A refresh succeeds exactly when all its checks hold and the pair can be made. */
  lemma RefreshExactlyWhen(cfg: Config, s: State, env: Env, req: TokenRequest)
    requires req.grantType == RefreshTokenGrant
    ensures var r := GrantToken(cfg, s, env, req).result;
      var allowed := CorrectClient(s, req.clientID, req.clientSecret, RefreshTokenGrant);
      var found := allowed && Find(s.refresh, req.refreshToken, env.now).Some?;
      && (r.Ok? <==> RefreshAccepted(s, env.now, req) && CanMakePair(env))
      && (r == Err(SigningFailed) <==> RefreshAccepted(s, env.now, req) && !env.signsAccess)
      && (r == Err(RandomFailed) <==> RefreshAccepted(s, env.now, req) && env.signsAccess && env.random.None?)
      && (r == Err(RefreshTokenNotFound) <==> allowed && !found)
      && (found ==>
            var prior, scopes := s.refresh[req.refreshToken].value, s.clients[req.clientID].scopes;
            var own := prior.clientID == req.clientID;
            var permitted := MayHave(scopes, if req.scope == "" then prior.scope else req.scope);
            && (r == Err(RefreshTokenOfOtherClient) <==> !own)
            && (r == Err(ScopeNotAllowed) <==> own && !permitted)
            && (r == Err(ScopeExceedsGrant) <==> own && permitted && !MayRefresh(scopes, req.scope, prior.scope))
            && (r.Ok? ==> r.value.scope == RefreshedFor(scopes, req.scope, prior.scope)))
  {
    hide RefreshedScope, IdToken, IncludesIdToken, MayHave, MayRefresh;
    AuthenticatesIff(s, req.clientID, req.clientSecret, RefreshTokenGrant);
    if req.clientID in s.clients && req.refreshToken in s.refresh {
      RefreshedExactly(s.clients[req.clientID].scopes, req.scope, s.refresh[req.refreshToken].value.scope);
    }
  }

  /**
   * A client that presents its own live refresh token and asks for registered values among those originally
   * granted gets exactly what it asks for; one that asks for nothing gets the original scope again.
   */
  lemma NarrowerScopeGranted(cfg: Config, s: State, env: Env, req: TokenRequest)
    requires req.grantType == RefreshTokenGrant && CanMakePair(env)
    requires req.clientID in s.clients && s.clients[req.clientID].secret == req.clientSecret
    requires RefreshTokenGrant in s.clients[req.clientID].grants
    requires Find(s.refresh, req.refreshToken, env.now).Some?
    requires s.refresh[req.refreshToken].value.clientID == req.clientID
    ensures var r := GrantToken(cfg, s, env, req).result;
      var registered, original := s.clients[req.clientID].scopes, s.refresh[req.refreshToken].value.scope;
      var granted := if req.scope == "" then original else req.scope;
      granted != "" && ScopeSet(granted) <= ScopeSet(original)
      && (registered == [] || forall f :: f in ScopeSet(granted) ==> f in registered)
      ==> r.Ok? && r.value.scope == granted
  {
    hide GrantToken, ScopeSet;
    RefreshExactlyWhen(cfg, s, env, req);
  }

  /**
   * A refused refresh leaves every live token in place exactly when one of its checks failed: once all of
   * them hold the presented token is deleted, even if the signer or the random source then fails.
   */
  lemma RefusedRefreshKeepsTokensIff(cfg: Config, s: State, env: Env, req: TokenRequest)
    requires req.grantType == RefreshTokenGrant && GrantToken(cfg, s, env, req).result.Err?
    ensures var t := After(s, env.now, GrantToken(cfg, s, env, req).effect);
      (SameLive(t.access, s.access, env.now) && SameLive(t.refresh, s.refresh, env.now))
      <==> !RefreshAccepted(s, env.now, req)
  {
    var t := After(s, env.now, GrantToken(cfg, s, env, req).effect);
    RefusedRefreshEffect(cfg, s, env, req);
    if RefreshAccepted(s, env.now, req) {
      assert Find(t.refresh, req.refreshToken, env.now) != Find(s.refresh, req.refreshToken, env.now);
    }
  }

  lemma RefusedRefreshEffect(cfg: Config, s: State, env: Env, req: TokenRequest)
    requires req.grantType == RefreshTokenGrant && GrantToken(cfg, s, env, req).result.Err?
    ensures var effect := GrantToken(cfg, s, env, req).effect;
      if RefreshAccepted(s, env.now, req)
      then effect.refresh == ProbeAndDelete(req.refreshToken)
      else effect.access == NoChange() && (effect.refresh == NoChange() || effect.refresh == Probe(req.refreshToken))
  {
    hide RefreshedScope, IdToken, IncludesIdToken, MayRefresh;
    AuthenticatesIff(s, req.clientID, req.clientSecret, RefreshTokenGrant);
    if req.clientID in s.clients && req.refreshToken in s.refresh {
      RefreshedExactly(s.clients[req.clientID].scopes, req.scope, s.refresh[req.refreshToken].value.scope);
    }
  }

  lemma RefusedUseEffect(s: State, now: int, token: Token)
    ensures var t := After(s, now, Bearer(s, now, token).effect);
      SameLive(t.access, s.access, now) && SameLive(t.refresh, s.refresh, now)
    ensures UserInfoFor(s, now, token).effect == Bearer(s, now, token).effect
  {}

  lemma RefusedTokenEffect(cfg: Config, s: State, env: Env, req: TokenRequest)
    requires req.grantType != RefreshTokenGrant && GrantToken(cfg, s, env, req).result.Err?
    ensures var effect := GrantToken(cfg, s, env, req).effect;
      effect.access == NoChange() && effect.refresh == NoChange()
  {
    hide GrantPassword, GrantClientCredentials, PermittedScope, PkceMatches, IdToken;
    match req.grantType {
      case PasswordGrant => PasswordExactlyWhen(cfg, s, env, req);
      case ClientCredentialsGrant => ClientCredentialsExactlyWhen(cfg, s, env, req);
      case _ =>
    }
  }

  /** The event is a request of any kind, and it is refused. */
  ghost predicate Refused(run: Run, i: nat) {
    && i < run.Length()
    && match run.Answer(i)
       case Some(AuthorizeAnswer(r)) => r.Err?
       case Some(TokenAnswer(r)) => r.Err?
       case Some(RevokeAnswer(r)) => r.Err?
       case Some(BearerAnswer(r)) => r.Err?
       case Some(UserInfoAnswer(r)) => r.Err?
       case None => false
  }

  /** The event is a refresh for which every check holds. */
  ghost predicate AcceptedRefresh(run: Run, i: nat) {
    && i < run.Length() && run.EventAt(i).action.Request? && run.EventAt(i).action.op.TokenOp?
    && var req := run.EventAt(i).action.op.request;
    && req.grantType == RefreshTokenGrant && RefreshAccepted(run.Server(i), run.Now(i), req)
  }

  /** The only refusal that costs a live token is that of a refresh whose checks all hold. */
  lemma RefusalsKeepTokensIff(run: Run, i: nat)
    requires run.Valid() && Refused(run, i)
    ensures (SameLive(run.Server(i + 1).access, run.Server(i).access, run.Now(i))
             && SameLive(run.Server(i + 1).refresh, run.Server(i).refresh, run.Now(i)))
      <==> !AcceptedRefresh(run, i)
  {
    hide Next, GrantToken, Authorize, Revoke, Bearer, UserInfoFor, RefreshAccepted;
    ServerStep(run, i);
    var s, e := run.Server(i), run.EventAt(i);
    match e.action.op {
      case AuthorizeOp(req) => ErrorsRedirectOnlyToRegistered(s, e.env, req);
      case TokenOp(req) =>
        if req.grantType == RefreshTokenGrant {
          RefusedRefreshKeepsTokensIff(run.cfg, s, e.env, req);
        } else {
          RefusedTokenEffect(run.cfg, s, e.env, req);
        }
      case RevokeOp(token, hint, clientID) => RevokedExactlyWhen(s, e.env.now, token, hint, clientID);
      case BearerOp(token) => RefusedUseEffect(s, e.env.now, token);
      case UserInfoOp(token) => RefusedUseEffect(s, e.env.now, token);
    }
  }

  /**
   * The whole code flow completes for an honest client. While registered scopes stay as they are: if the
   * authorize request at `j` names a registered client, one of its redirect URIs, a scope it may have and an
   * S256 challenge, and the first token request presenting the code comes within 60 seconds from the same
   * client with the same redirect URI and a verifier that hashes to the challenge, then the code is redeemed.
   */
  lemma HonestCodeFlowCompletes(run: Run, j: nat, i: nat)
    requires run.Valid() && Registration.FixedScopes(run) && j < i < run.Length()
    requires run.EventAt(j).action.Request? && run.EventAt(j).action.op.AuthorizeOp?
    requires var a, env, s := run.EventAt(j).action.op.authorize, run.EventAt(j).env, run.Server(j);
      && a.clientID in s.clients && a.redirectURI != "" && a.redirectURI in s.clients[a.clientID].redirectURIs
      && MayHave(s.clients[a.clientID].scopes, a.scope)
      && a.challenge != "" && a.challengeMethod == "S256" && a.responseType == "code" && env.random.Some?
    requires var a, code := run.EventAt(j).action.op.authorize, Opaque(run.EventAt(j).env.random.value);
      && Codes.Presents(run, i, code) && (forall k :: j < k < i ==> !Codes.Presents(run, k, code))
      && var t := run.EventAt(i).action.op.request;
      && run.Now(i) - run.Now(j) <= 60 * SECOND
      && t.clientID == a.clientID && t.redirectURI == a.redirectURI && run.cfg.s256(t.verifier) == a.challenge
    requires CanMakePair(run.EventAt(i).env)
    ensures Codes.Redeems(run, i, Opaque(run.EventAt(j).env.random.value))
  {
    hide NextServer, GrantToken, PermittedScope, Registration.FixedScopes, CorrectClient, MayHave;
    var a, code := run.EventAt(j).action.op.authorize, Opaque(run.EventAt(j).env.random.value);
    AuthorizedExactlyWhen(run.Server(j), run.EventAt(j).env, a);
    AuthorizeStores(run.cfg, run.Server(j), run.EventAt(j).env, a);
    ServerStep(run, j);
    assert Codes.HandsOut(run, j, code);
    Codes.RedeemedExactlyWhen(run, j, i, code);
    Codes.CodeStays(run, j, i, code);
    Registration.ScopesStayInside(run, i);
    var scope, scopes := run.Server(i).codes[code].value.scope, run.Server(i).clients[a.clientID].scopes;
    Registration.InsideIsPermitted(run.Server(i), a.clientID, scope);
    PermittedExactly(run.Server(j).clients[a.clientID].scopes, a.scope);
    PermittedExactly(scopes, scope);
  }

  /**
   * A refresh token issued at `i` and not exchanged or revoked since is exchanged at `j` exactly when at
   * most 24 hours have passed, the client is the one it was issued to, authentic and may use the grant, it
   * asks for registered values inside the scope issued at `i`, or for nothing, and the new pair can be made.
   * It then gets the scope it asks for or, when it asks for nothing, the scope issued at `i`.
   */
  lemma ExchangedExactlyWhen(run: Run, i: nat, j: nat, token: Token)
    requires run.Valid() && IssuesRefresh(run, i, token) && i < j < run.Length()
    requires run.EventAt(j).action.Request? && run.EventAt(j).action.op.TokenOp?
    requires run.EventAt(j).action.op.request.grantType == RefreshTokenGrant
    requires run.EventAt(j).action.op.request.refreshToken == token
    requires forall k :: i < k < j ==> token !in DeletedRefresh(run.cfg, run.Server(k), run.EventAt(k))
    ensures var req, s := run.EventAt(j).action.op.request, run.Server(j);
      Exchanges(run, j, token) <==>
        && run.Now(j) - run.Now(i) <= 86400 * SECOND
        && req.clientID == run.Request(i).clientID
        && CorrectClient(s, req.clientID, req.clientSecret, RefreshTokenGrant) && CanMakePair(run.EventAt(j).env)
        && MayRefresh(s.clients[req.clientID].scopes, req.scope, run.Issued(i).value.scope)
    ensures var req := run.EventAt(j).action.op.request;
      Exchanges(run, j, token) ==>
        && req.clientID in run.Server(j).clients
        && run.Issued(j).value.scope
           == RefreshedFor(run.Server(j).clients[req.clientID].scopes, req.scope, run.Issued(i).value.scope)
  {
    hide NextServer, GrantToken, RefreshedScope, DeletedRefresh, MayRefresh;
    RefreshLifetime(run, i, j, token);
    ServerStep(run, j);
    RefreshExactlyWhen(run.cfg, run.Server(j), run.EventAt(j).env, run.EventAt(j).action.op.request);
    if Find(run.Server(j).refresh, token, run.Now(j)).Some? {
      var k := IssuerOf(run, j, token);
      IssuerUnique(run, i, k, token);
    }
  }

  /** The empty-challenge branch of the PKCE check is never taken for a code found in a reachable state. */
  lemma StoredCodesDemandPkce(run: Run, n: nat, code: Token, verifier: string)
    requires run.Valid() && n <= run.Length() && code in run.Server(n).codes
    ensures var c := run.Server(n).codes[code].value;
      c.challenge != ""
      && (PkceMatches(run.cfg, c.challenge, c.challengeMethod, verifier) <==> run.cfg.s256(verifier) == c.challenge)
  {
    hide NextServer;
    InvAlways(run, n);
    assert CodeAgrees(run.At(n).drawn, code, run.Server(n).codes[code]);
  }
}
