/** Scopes against client registrations, over runs in which a client's registered scopes do not change. */
module Registration {
  import opened Base
  import opened Model
  import opened Expiry
  import opened Scope
  import opened Protocol
  import opened World

  ghost predicate WellFormed(scopes: seq<string>) {
    forall t :: t in scopes ==> ScopeToken(t)
  }

  ghost predicate ClientsWellFormed(s: State) {
    forall id :: id in s.clients ==> WellFormed(s.clients[id].scopes)
  }

  /** A registration names scope values only, and keeps the scopes of a client that is already there. */
  ghost predicate KeepsScopes(s: State, e: Event) {
    e.action.Register? ==>
      var client := e.action.client;
      WellFormed(client.scopes) && (client.id in s.clients ==> s.clients[client.id].scopes == client.scopes)
  }

  ghost predicate KeepsScopesAt(run: Run, i: nat) {
    i < run.Length() ==> KeepsScopes(run.Server(i), run.EventAt(i))
  }

  ghost predicate FixedScopes(run: Run) {
    ClientsWellFormed(run.Server(0)) && forall i :: KeepsScopesAt(run, i)
  }

  /** The scope is inside what the client has registered; a client with an empty list is not restricted. */
  ghost predicate Inside(s: State, clientID: string, scope: string) {
    && clientID in s.clients
    && (s.clients[clientID].scopes != [] ==> ScopeSet(scope) <= set t | t in s.clients[clientID].scopes)
  }

  ghost predicate AllInside(s: State) {
    && ClientsWellFormed(s)
    && (forall k :: k in s.codes ==> Inside(s, s.codes[k].value.clientID, s.codes[k].value.scope))
    && (forall k :: k in s.access ==> Inside(s, s.access[k].value.clientID, s.access[k].value.scope))
    && (forall k :: k in s.refresh ==> Inside(s, s.refresh[k].value.clientID, s.refresh[k].value.scope))
  }

  lemma PermittedIsInside(s: State, clientID: string, asked: string)
    requires ClientsWellFormed(s) && clientID in s.clients
    requires PermittedScope(s.clients[clientID].scopes, asked).Some?
    ensures Inside(s, clientID, PermittedScope(s.clients[clientID].scopes, asked).value)
    ensures Inside(s, clientID, asked)
  {
    PermittedInsideRegistration(s.clients[clientID].scopes, asked);
  }

  /** Where the scope of an issued pair comes from: a scope the client was permitted at that moment. */
  lemma IssuedScopePermitted(cfg: Config, s: State, env: Env, req: TokenRequest) returns (asked: string)
    requires GrantToken(cfg, s, env, req).result.Ok?
    ensures req.clientID in s.clients
    ensures var scopes, r := s.clients[req.clientID].scopes, GrantToken(cfg, s, env, req).result.value;
      PermittedScope(scopes, asked).Some? && (r.scope == asked || Some(r.scope) == PermittedScope(scopes, asked))
  {
    hide IdToken, IncludesIdToken, PermittedScope, Narrowed, PkceMatches, Authenticate;
    match req.grantType {
      case AuthorizationCodeGrant => asked := s.codes[req.code].value.scope;
      case RefreshTokenGrant => asked := if req.scope == "" then s.refresh[req.refreshToken].value.scope else req.scope;
      case _ => asked := req.scope;
    }
  }

  lemma IssuedIsInside(cfg: Config, s: State, env: Env, req: TokenRequest)
    requires ClientsWellFormed(s) && GrantToken(cfg, s, env, req).result.Ok?
    ensures Inside(s, req.clientID, GrantToken(cfg, s, env, req).result.value.scope)
  {
    hide GrantToken, PermittedScope, Inside, ClientsWellFormed;
    var asked := IssuedScopePermitted(cfg, s, env, req);
    PermittedIsInside(s, req.clientID, asked);
  }

  lemma InsideStays(cfg: Config, s: State, e: Event, clientID: string, scope: string)
    requires KeepsScopes(s, e) && Inside(s, clientID, scope)
    ensures Inside(NextServer(cfg, s, e), clientID, scope)
  {
    hide Handle, ScopeSet;
  }

  lemma ClientsStayWellFormed(cfg: Config, s: State, e: Event)
    requires KeepsScopes(s, e) && ClientsWellFormed(s)
    ensures ClientsWellFormed(NextServer(cfg, s, e))
  {
    hide Handle;
  }

  lemma AllInsideStep(cfg: Config, s: State, e: Event)
    requires KeepsScopes(s, e) && AllInside(s)
    ensures AllInside(NextServer(cfg, s, e))
  {
    hide NextServer, Inside, KeepsScopes, PermittedScope, ClientsWellFormed;
    var t := NextServer(cfg, s, e);
    ClientsStayWellFormed(cfg, s, e);
    forall k | k in t.codes
      ensures Inside(t, t.codes[k].value.clientID, t.codes[k].value.scope)
    {
      CodeOrigin(cfg, s, e, k);
      if !(k in s.codes && t.codes[k] == s.codes[k]) {
        PermittedIsInside(s, e.action.op.authorize.clientID, e.action.op.authorize.scope);
      }
      InsideStays(cfg, s, e, t.codes[k].value.clientID, t.codes[k].value.scope);
    }
    forall k | k in t.access
      ensures Inside(t, t.access[k].value.clientID, t.access[k].value.scope)
    {
      AccessOrigin(cfg, s, e, k);
      if !(k in s.access && t.access[k] == s.access[k]) {
        IssuedIsInside(cfg, s, e.env, e.action.op.request);
      }
      InsideStays(cfg, s, e, t.access[k].value.clientID, t.access[k].value.scope);
    }
    forall k | k in t.refresh
      ensures Inside(t, t.refresh[k].value.clientID, t.refresh[k].value.scope)
    {
      RefreshOrigin(cfg, s, e, k);
      if !(k in s.refresh && t.refresh[k] == s.refresh[k]) {
        IssuedIsInside(cfg, s, e.env, e.action.op.request);
      }
      InsideStays(cfg, s, e, t.refresh[k].value.clientID, t.refresh[k].value.scope);
    }
  }

  /** Every stored code and token stays inside the registered scopes of its client. */
  lemma {:induction false} ScopesStayInside(run: Run, n: nat)
    requires run.Valid() && FixedScopes(run) && n <= run.Length()
    ensures AllInside(run.Server(n))
  {
    hide NextServer, AllInside, ClientsWellFormed, KeepsScopes;
    if n == 0 {
      EmptyIsInside(run.Server(0));
    } else {
      ScopesStayInside(run, n - 1);
      assert KeepsScopesAt(run, n - 1);
      ServerStep(run, n - 1);
      AllInsideStep(run.cfg, run.Server(n - 1), run.EventAt(n - 1));
    }
  }

  lemma EmptyIsInside(s: State)
    requires ClientsWellFormed(s) && s.codes == map[] && s.access == map[] && s.refresh == map[]
    ensures AllInside(s)
  {}

  /** A scope inside the registration is permitted again. */
  lemma InsideIsPermitted(s: State, clientID: string, scope: string)
    requires Inside(s, clientID, scope)
    ensures PermittedScope(s.clients[clientID].scopes, scope).Some?
  {
    assert forall f :: f in Fields(scope) ==> f in ScopeSet(scope);
  }

  lemma ScopeErrorsComeFromScopes(cfg: Config, s: State, env: Env, req: TokenRequest)
    ensures var r := GrantToken(cfg, s, env, req).result;
      && (r == Err(CodeScopeNoLongerPermitted) ==>
            && req.code in s.codes && s.codes[req.code].value.clientID == req.clientID && req.clientID in s.clients
            && PermittedScope(s.clients[req.clientID].scopes, s.codes[req.code].value.scope).None?)
      && (r == Err(ScopeNotAllowed) && req.grantType == RefreshTokenGrant && req.scope == "" ==>
            && req.refreshToken in s.refresh && s.refresh[req.refreshToken].value.clientID == req.clientID
            && req.clientID in s.clients
            && PermittedScope(s.clients[req.clientID].scopes, s.refresh[req.refreshToken].value.scope).None?)
  {
    hide IdToken, IncludesIdToken, PermittedScope, Narrowed, PkceMatches, Authenticate;
  }

  /**
   * The revalidation of a code's scope never fails, nor does that of a refresh without a scope parameter.
   */
  lemma RevalidationNeverFails(run: Run, i: nat)
    requires run.Valid() && FixedScopes(run) && i < run.Length()
    ensures run.Answer(i) != Some(TokenAnswer(Err(CodeScopeNoLongerPermitted)))
    ensures run.EventAt(i).action.Request? && run.EventAt(i).action.op.TokenOp?
      && run.EventAt(i).action.op.request.grantType == RefreshTokenGrant && run.EventAt(i).action.op.request.scope == ""
      ==> run.Answer(i) != Some(TokenAnswer(Err(ScopeNotAllowed)))
  {
    hide NextServer, GrantToken, PermittedScope, Inside, FixedScopes, Authorize, Revoke, UserInfoFor, Bearer;
    var s := run.Server(i);
    ServerStep(run, i);
    ScopesStayInside(run, i);
    if run.EventAt(i).action.Request? && run.EventAt(i).action.op.TokenOp? {
      var req := run.EventAt(i).action.op.request;
      ScopeErrorsComeFromScopes(run.cfg, s, run.EventAt(i).env, req);
      if req.code in s.codes { InsideIsPermitted(s, s.codes[req.code].value.clientID, s.codes[req.code].value.scope); }
      if req.refreshToken in s.refresh {
        InsideIsPermitted(s, s.refresh[req.refreshToken].value.clientID, s.refresh[req.refreshToken].value.scope);
      }
    }
  }
}
