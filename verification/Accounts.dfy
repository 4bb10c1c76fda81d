/**
 * Registrations over whole runs: the record a client or a user was last registered with decides every later
 * request, until it is registered again.
 */
module Accounts {
  import opened Base
  import opened Model
  import opened Protocol
  import opened World
  import opened Decisions
  import opened Identity
  import opened Requests
  import opened Scope

  // ---------------------------------------------------------------- what is stored

  lemma ClientsChange(cfg: Config, s: State, e: Event)
    ensures var t := NextServer(cfg, s, e);
      if e.action.Register?
      then forall id :: (id in t.clients <==> id in s.clients || id == e.action.client.id)
                     && (id in t.clients ==>
                           t.clients[id] == if id == e.action.client.id then e.action.client else s.clients[id])
      else t.clients == s.clients
  {
    hide Handle;
  }

  lemma UsersChange(cfg: Config, s: State, e: Event)
    ensures var t := NextServer(cfg, s, e);
      if e.action.PutUser?
      then
        && (forall name :: name in s.users.byUsername && name != e.action.user.username ==>
              name in t.users.byUsername && t.users.byUsername[name] == s.users.byUsername[name])
        && e.action.user.username in t.users.byUsername
        && t.users.byUsername[e.action.user.username] == e.action.user
        && (forall id :: id in s.users.byID && id != e.action.user.id ==>
              id in t.users.byID && t.users.byID[id] == s.users.byID[id])
        && e.action.user.id in t.users.byID && t.users.byID[e.action.user.id] == e.action.user
      else t.users == s.users
  {
    hide Handle;
  }

  /** Event `p` registers the client, and no event from then to `n` registers another one under its ID. */
  ghost predicate LastRegistered(run: Run, p: nat, n: nat, client: Client) {
    && p < n <= run.Length() && run.EventAt(p).action == Register(client)
    && (forall k :: p < k < n && run.EventAt(k).action.Register? ==> run.EventAt(k).action.client.id != client.id)
  }

  /** Event `p` stores the user, and no event from then to `n` stores another one under the same name. */
  ghost predicate LastNamed(run: Run, p: nat, n: nat, user: User) {
    && p < n <= run.Length() && run.EventAt(p).action == PutUser(user)
    && (forall k :: p < k < n && run.EventAt(k).action.PutUser? ==>
                      run.EventAt(k).action.user.username != user.username)
  }

  /** Likewise for the ID. */
  ghost predicate LastIdentified(run: Run, p: nat, n: nat, user: User) {
    && p < n <= run.Length() && run.EventAt(p).action == PutUser(user)
    && (forall k :: p < k < n && run.EventAt(k).action.PutUser? ==> run.EventAt(k).action.user.id != user.id)
  }

  lemma {:induction false} ClientStays(run: Run, p: nat, n: nat, client: Client)
    requires run.Valid() && LastRegistered(run, p, n, client)
    ensures client.id in run.Server(n).clients && run.Server(n).clients[client.id] == client
    decreases n
  {
    hide NextServer;
    if p + 1 < n { ClientStays(run, p, n - 1, client); }
    ServerStep(run, n - 1);
    ClientsChange(run.cfg, run.Server(n - 1), run.EventAt(n - 1));
  }

  lemma {:induction false} NameStays(run: Run, p: nat, n: nat, user: User)
    requires run.Valid() && LastNamed(run, p, n, user)
    ensures user.username in run.Server(n).users.byUsername && run.Server(n).users.byUsername[user.username] == user
    decreases n
  {
    hide NextServer;
    if p + 1 < n { NameStays(run, p, n - 1, user); }
    ServerStep(run, n - 1);
    UsersChange(run.cfg, run.Server(n - 1), run.EventAt(n - 1));
  }

  lemma {:induction false} IdentityStays(run: Run, p: nat, n: nat, user: User)
    requires run.Valid() && LastIdentified(run, p, n, user)
    ensures user.id in run.Server(n).users.byID && run.Server(n).users.byID[user.id] == user
    decreases n
  {
    hide NextServer;
    if p + 1 < n { IdentityStays(run, p, n - 1, user); }
    ServerStep(run, n - 1);
    UsersChange(run.cfg, run.Server(n - 1), run.EventAt(n - 1));
  }

  // ------------------------------------------------------------- what it decides

  /** The token request that event `i` makes, if it makes one. */
  function TokenRequestAt(run: Run, i: nat): Option<TokenRequest>
    requires i < run.Length()
  {
    match run.EventAt(i).action
    case Request(TokenOp(req)) => Some(req)
    case _ => None
  }

  /**
   * The secret and the grant types a client was last registered with decide whether its token requests are
   * authenticated, whichever of the four grants they ask for.
   */
  lemma SecretDecides(run: Run, p: nat, i: nat, client: Client, req: TokenRequest)
    requires run.Valid() && i < run.Length() && LastRegistered(run, p, i, client)
    requires TokenRequestAt(run, i) == Some(req) && req.clientID == client.id && !req.grantType.OtherGrant?
    ensures run.Answer(i) == Some(TokenAnswer(Err(AuthenticationFailed))) <==> req.clientSecret != client.secret
    ensures run.Answer(i) == Some(TokenAnswer(Err(GrantNotAllowed)))
      <==> req.clientSecret == client.secret && req.grantType !in client.grants
    ensures run.Issued(i).Some? ==> req.clientSecret == client.secret && req.grantType in client.grants
  {
    hide NextServer, GrantToken;
    ServerStep(run, i);
    ClientStays(run, p, i, client);
    AuthenticatedExactlyWhen(run.cfg, run.Server(i), run.EventAt(i).env, req);
    if run.Issued(i).Some? { IssuedToAuthentic(run, i); }
  }

  /**
   * UserInfo on an accepted openid token reports the record last stored under the ID in its sub claim, as far
   * as the scope claim allows.
   */
  lemma UserInfoReportsLastStored(run: Run, p: nat, i: nat, user: User, token: Token)
    requires run.Valid() && i < run.Length() && LastIdentified(run, p, i, user)
    requires Bearer(run.Server(i), run.Now(i), token).result.Ok? && token.AccessJwt? && token.sub == user.id
    requires "openid" in ScopeSet(token.scope)
    ensures UserInfoFor(run.Server(i), run.Now(i), token).result
      == Ok(UserInfo(user.id, if "profile" in ScopeSet(token.scope) then user.name else "",
                     if "email" in ScopeSet(token.scope) then user.email else "",
                     "email" in ScopeSet(token.scope) && user.email != ""))
  {
    hide NextServer, Bearer, UserInfoFor, ScopeSet;
    IdentityStays(run, p, i, user);
    UserInfoExactly(run, i, token);
  }

  /**
   * From the moment a user is stored until another one is stored under the same name, a password grant in
   * that name, authentic and otherwise in order, succeeds exactly when the password matches that user's hash;
   * it is refused for invalid credentials exactly when it does not; and the token is for that user's ID.
   */
  lemma PasswordDecides(run: Run, p: nat, i: nat, user: User, req: TokenRequest)
    requires run.Valid() && i < run.Length() && LastNamed(run, p, i, user)
    requires TokenRequestAt(run, i) == Some(req) && req.grantType == PasswordGrant && req.username == user.username
    ensures var s, env := run.Server(i), run.EventAt(i).env;
      var inOrder := && CorrectClient(s, req.clientID, req.clientSecret, PasswordGrant)
                     && run.cfg.passwordGrantConfigured && MayHave(s.clients[req.clientID].scopes, req.scope);
      && (run.Issued(i).Some? <==>
            inOrder && CanMakePair(env) && run.cfg.passwordMatches(user.passwordHash, req.password))
      && (run.Answer(i) == Some(TokenAnswer(Err(InvalidCredentials))) <==>
            inOrder && !run.cfg.passwordMatches(user.passwordHash, req.password))
    ensures run.Issued(i).Some? ==>
      && run.Issued(i).value.accessToken.AccessJwt? && run.Issued(i).value.accessToken.sub == user.id
      && run.Issued(i).value.scope == ScopeFor(run.Server(i).clients[req.clientID].scopes, req.scope)
  {
    hide NextServer, GrantToken, MayHave, CanMakePair;
    ServerStep(run, i);
    NameStays(run, p, i, user);
    PasswordExactlyWhen(run.cfg, run.Server(i), run.EventAt(i).env, req);
    if run.Issued(i).Some? { IssuedToAuthentic(run, i); }
  }
}
