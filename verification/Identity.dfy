/** Who a token speaks for, over whole runs: openid tokens and known users, ID tokens and UserInfo. */
module Identity {
  import opened Base
  import opened Model
  import opened Expiry
  import opened Scope
  import opened Protocol
  import opened World
  import opened Access
  import opened Decisions
  import Lineage

  // ------------------------------------------------------------------ known users

  /** The user logged in at event `i` or before. */
  ghost predicate LoggedInBy(run: Run, i: nat, userID: string) {
    exists k: nat, name: string, password: string ::
      k <= i <= run.Length() && LoginAt(run, k, name, password) == Some(userID)
  }

  /** The user ID that a login with this name and password returns after `k` events. */
  ghost function LoginAt(run: Run, k: nat, name: string, password: string): Option<string> {
    if k <= run.Length() && CorrectLogin(run.cfg, run.Server(k).users, name, password)
    then Some(run.Server(k).users.byUsername[name].id)
    else None
  }

  ghost predicate AuthorizesLoggedInAt(run: Run, i: nat) {
    i < run.Length() && run.EventAt(i).action.Request? && run.EventAt(i).action.op.AuthorizeOp? ==>
      LoggedInBy(run, i, run.EventAt(i).action.op.authorize.userID)
  }

  /** Authorize requests carry only user IDs that a login returned. */
  ghost predicate AuthorizesLoggedIn(run: Run) {
    forall i :: AuthorizesLoggedInAt(run, i)
  }

  lemma UsersStay(cfg: Config, s: State, e: Event)
    ensures s.users.byID.Keys <= NextServer(cfg, s, e).users.byID.Keys
  {
    hide Handle;
  }

  lemma {:induction false} KnownStays(run: Run, i: nat, j: nat, id: string)
    requires run.Valid() && i <= j <= run.Length() && id in run.Server(i).users.byID
    ensures id in run.Server(j).users.byID
    decreases j
  {
    hide NextServer;
    if i < j {
      KnownStays(run, i, j - 1, id);
      ServerStep(run, j - 1);
      UsersStay(run.cfg, run.Server(j - 1), run.EventAt(j - 1));
    }
  }

  lemma LoggedInIsKnown(run: Run, i: nat, id: string)
    requires run.Valid() && i <= run.Length() && LoggedInBy(run, i, id)
    ensures id in run.Server(i).users.byID
  {
    hide NextServer, Inv;
    var k: nat, name, password :| k <= i <= run.Length() && LoginAt(run, k, name, password) == Some(id);
    InvAlways(run, k);
    UsersOk(run.cfg, run.At(k));
    KnownStays(run, k, i, id);
  }

  lemma UsersOk(cfg: Config, w: World)
    requires Inv(cfg, w)
    ensures UsersConsistent(w.server.users)
  {}

  ghost predicate SubjectsKnown(s: State) {
    && UsersConsistent(s.users)
    && (forall k :: k in s.codes ==> s.codes[k].value.userID in s.users.byID)
    && (forall k :: k in s.refresh ==> s.refresh[k].value.userID in s.users.byID)
    && (forall k :: k in s.access ==> SubjectKnown(s, s.access[k].value.userID, s.access[k].value.scope))
  }

  ghost predicate SubjectKnown(s: State, userID: string, scope: string) {
    userID in s.users.byID || "openid" !in ScopeSet(scope)
  }

  /** A pair is issued for a known user; a client_credentials token has no refresh token and no openid scope. */
  lemma IssuedSubject(cfg: Config, s: State, env: Env, req: TokenRequest)
    requires SubjectsKnown(s) && GrantToken(cfg, s, env, req).result.Ok?
    ensures var r := GrantToken(cfg, s, env, req).result.value;
      && r.accessToken.AccessJwt?
      && (if req.grantType == ClientCredentialsGrant
          then r.refreshToken == None && r.idToken == None && r.accessToken.sub == "" && "openid" !in ScopeSet(r.scope)
          else r.refreshToken.Some? && r.accessToken.sub in s.users.byID)
  {
    hide IdToken, IncludesIdToken, PermittedScope, Narrowed, PkceMatches, ScopeSet;
  }

  lemma SubjectsKnownStep(cfg: Config, s: State, e: Event)
    requires SubjectsKnown(s)
    requires e.action.Request? && e.action.op.AuthorizeOp? ==> e.action.op.authorize.userID in s.users.byID
    ensures SubjectsKnown(NextServer(cfg, s, e))
  {
    hide NextServer, UsersConsistent, PermittedScope, ScopeSet, GrantToken;
    var t := NextServer(cfg, s, e);
    UsersStayConsistent(cfg, s, e);
    UsersStay(cfg, s, e);
    if IssuedBy(cfg, s, e).Some? {
      IssuedSubject(cfg, s, e.env, e.action.op.request);
    }
    forall k | k in t.codes ensures t.codes[k].value.userID in t.users.byID {
      CodeOrigin(cfg, s, e, k);
    }
    forall k | k in t.refresh ensures t.refresh[k].value.userID in t.users.byID {
      RefreshOrigin(cfg, s, e, k);
    }
    forall k | k in t.access ensures SubjectKnown(t, t.access[k].value.userID, t.access[k].value.scope) {
      AccessOrigin(cfg, s, e, k);
    }
  }

  /** In every reachable state a stored token with the openid scope names a user that exists. */
  lemma {:induction false} OpenidNamesKnownUser(run: Run, n: nat)
    requires run.Valid() && AuthorizesLoggedIn(run) && n <= run.Length()
    ensures SubjectsKnown(run.Server(n))
  {
    hide NextServer, UsersConsistent, LoggedInBy;
    if n > 0 {
      OpenidNamesKnownUser(run, n - 1);
      assert AuthorizesLoggedInAt(run, n - 1);
      if run.EventAt(n - 1).action.Request? && run.EventAt(n - 1).action.op.AuthorizeOp? {
        LoggedInIsKnown(run, n - 1, run.EventAt(n - 1).action.op.authorize.userID);
      }
      ServerStep(run, n - 1);
      SubjectsKnownStep(run.cfg, run.Server(n - 1), run.EventAt(n - 1));
    }
  }

  /** UserInfo never meets a token whose user is missing. */
  lemma UserAlwaysFound(run: Run, i: nat)
    requires run.Valid() && AuthorizesLoggedIn(run) && i < run.Length()
    ensures run.Answer(i) != Some(UserInfoAnswer(Err(UserNotFound)))
  {
    hide NextServer, AuthorizesLoggedIn, ScopeSet, UsersConsistent, GrantToken, Authorize, Revoke;
    ServerStep(run, i);
    OpenidNamesKnownUser(run, i);
  }

  // --------------------------------------------------------- ID token and UserInfo

  /** What the JSON encoding keeps of a field that is omitted when empty. */
  function OmitEmpty(s: string): Option<string> {
    if s == "" then None else Some(s)
  }

  function OmitFalse(b: bool): Option<bool> {
    if b then Some(true) else None
  }

  /** An ID token is for the subject, client and scope of the access token issued with it. */
  lemma IdTokenOf(cfg: Config, s: State, env: Env, req: TokenRequest) returns (nonce: string, authTime: int)
    requires GrantToken(cfg, s, env, req).result.Ok? && GrantToken(cfg, s, env, req).result.value.idToken.Some?
    ensures var r := GrantToken(cfg, s, env, req).result.value;
      && r.accessToken.AccessJwt? && IncludesIdToken(r.scope, r.accessToken.sub)
      && r.idToken.value == IdToken(cfg, env.now, r.accessToken.aud, r.accessToken.sub, nonce, authTime,
                                    UserByID(s.users, r.accessToken.sub), r.scope)
  {
    hide IdToken, IncludesIdToken, PermittedScope, Narrowed, PkceMatches, ScopeSet, Authenticate;
    nonce, authTime := "", Unix(env.now);
    if req.grantType == AuthorizationCodeGrant {
      var code := s.codes[req.code].value;
      nonce, authTime := code.nonce, code.authTime;
    }
  }

  /** The ID token claims that the scope asks for and the user's record has. */
  ghost predicate ClaimsAsGranted(token: Token, user: Option<User>, scope: string) {
    && token.IdJwt?
    && (var shown := user.Some? && "email" in ScopeSet(scope) && user.value.email != "";
        && token.email == (if shown then Some(user.value.email) else None)
        && token.emailVerified == (if shown then Some(true) else None))
    && (var shown := user.Some? && "profile" in ScopeSet(scope) && user.value.name != "";
        token.name == (if shown then Some(user.value.name) else None))
  }

  /**
   * A response holds an ID token exactly when openid is granted to a user and the signer does not fail. The
   * ID token is issued by the server to the client for the subject of the access token, at the same second,
   * for one hour, with the claims granted; only the code grant gives it a nonce and an earlier login time.
   */
  lemma IdTokenExactly(cfg: Config, s: State, env: Env, req: TokenRequest)
    requires GrantToken(cfg, s, env, req).result.Ok?
    ensures var r := GrantToken(cfg, s, env, req).result.value;
      && r.accessToken.AccessJwt?
      && (r.idToken.Some? <==> "openid" in ScopeSet(r.scope) && r.accessToken.sub != "" && env.signsId)
    ensures var r := GrantToken(cfg, s, env, req).result.value;
      r.idToken.Some? ==>
        var id := r.idToken.value;
        && id.IdJwt? && id.iss == cfg.issuer && id.aud == req.clientID && id.sub == r.accessToken.sub
        && id.iat == r.accessToken.iat == Unix(env.now) && id.exp == id.iat + 3600
        && ClaimsAsGranted(id, if id.sub in s.users.byID then Some(s.users.byID[id.sub]) else None, r.scope)
        && (req.grantType != AuthorizationCodeGrant ==> id.nonce == None && id.authTime == Unix(env.now))
  {
    hide PermittedScope, Narrowed, PkceMatches, ScopeSet, Authenticate;
  }

  lemma UserInfoShape(s: State, now: int, token: Token)
    requires Bearer(s, now, token).result.Ok?
    requires var ti := Bearer(s, now, token).result.value; "openid" in ScopeSet(ti.scope) && ti.userID in s.users.byID
    ensures var ti := Bearer(s, now, token).result.value;
      var user := s.users.byID[ti.userID];
      UserInfoFor(s, now, token).result == Ok(UserInfo(ti.userID,
        if "profile" in ScopeSet(ti.scope) then user.name else "",
        if "email" in ScopeSet(ti.scope) then user.email else "",
        "email" in ScopeSet(ti.scope) && user.email != ""))
  {
    hide ScopeSet, Bearer;
  }

  /**
   * Whenever a response holds an ID token and its access token is still accepted, UserInfo on that access
   * token reports the same subject and, with empty and false fields left out, exactly the ID token's name,
   * email and email_verified, provided the user's record has not changed in between.
   */
  lemma UserInfoAgreesWithIdToken(run: Run, i: nat, j: nat)
    requires run.Valid() && i < j < run.Length() && AuthorizesLoggedIn(run)
    requires run.Issued(i).Some? && run.Issued(i).value.idToken.Some? && run.Issued(i).value.accessToken.AccessJwt?
    requires Bearer(run.Server(j), run.Now(j), run.Issued(i).value.accessToken).result.Ok?
    requires var sub := run.Issued(i).value.accessToken.sub;
      UserByID(run.Server(j).users, sub) == UserByID(run.Server(i).users, sub)
    ensures var r := run.Issued(i).value;
      var info := UserInfoFor(run.Server(j), run.Now(j), r.accessToken).result;
      && r.idToken.value.IdJwt? && info.Ok?
      && info.value.sub == r.idToken.value.sub == r.accessToken.sub
      && OmitEmpty(info.value.name) == r.idToken.value.name
      && OmitEmpty(info.value.email) == r.idToken.value.email
      && OmitFalse(info.value.emailVerified) == r.idToken.value.emailVerified
  {
    hide NextServer, GrantToken, ScopeSet, Bearer, UserInfoFor, AuthorizesLoggedIn;
    var r := run.Issued(i).value;
    ServerStep(run, i);
    var nonce, authTime := IdTokenOf(run.cfg, run.Server(i), run.EventAt(i).env, run.Request(i));
    Lineage.IssuedShape(run, i);
    BearerExactly(run, j, run.Now(j), r.accessToken);
    OpenidNamesKnownUser(run, j);
    assert r.accessToken in run.Server(j).access && run.Server(j).access[r.accessToken].value
      == Bearer(run.Server(j), run.Now(j), r.accessToken).result.value by {
      BearerReturnsRecord(run.Server(j), run.Now(j), r.accessToken);
    }
    UserInfoShape(run.Server(j), run.Now(j), r.accessToken);
  }

  /**
   * At any event of a run UserInfo refuses an accepted access token exactly when its own scope claim does
   * not hold openid; else it reports the user its sub claim names, as far as the scope claim allows, and a
   * bearer token that is not accepted gets the error of the bearer check.
   */
  lemma UserInfoExactly(run: Run, i: nat, token: Token)
    requires run.Valid() && i < run.Length()
    ensures var bearer, r, users := Bearer(run.Server(i), run.Now(i), token).result,
                UserInfoFor(run.Server(i), run.Now(i), token).result, run.Server(i).users.byID;
      if bearer.Err? then r == Err(bearer.error)
      else
        && token.AccessJwt?
        && (r == Err(OpenidRequired) <==> "openid" !in ScopeSet(token.scope))
        && (r == Err(UserNotFound) <==> "openid" in ScopeSet(token.scope) && token.sub !in users)
        && (r.Ok? <==> "openid" in ScopeSet(token.scope) && token.sub in users)
        && (r.Ok? ==>
              && r.value.sub == token.sub
              && r.value.name == (if "profile" in ScopeSet(token.scope) then users[token.sub].name else "")
              && r.value.email == (if "email" in ScopeSet(token.scope) then users[token.sub].email else "")
              && (r.value.emailVerified <==> r.value.email != ""))
  {
    hide NextServer, Bearer, ScopeSet;
    BearerExactly(run, i, run.Now(i), token);
  }

  lemma BearerReturnsRecord(s: State, now: int, token: Token)
    requires Bearer(s, now, token).result.Ok?
    ensures token in s.access && Bearer(s, now, token).result.value == s.access[token].value
  {}
}
