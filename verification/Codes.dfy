/** Authorization codes over whole runs: where a redeemed code comes from, and that it is redeemed once. */
module Codes {
  import opened Base
  import opened Model
  import opened Expiry
  import opened Scope
  import opened Protocol
  import opened World
  import opened Decisions
  import Lineage

  /** Event `i` authorized a request and handed out `code`. */
  ghost predicate HandsOut(run: Run, i: nat, code: Token) {
    i < run.Length() && run.Authorized(i).Some? && run.Authorized(i).value.code == code
  }

  /** Event `i` exchanged `code` for a token pair. */
  ghost predicate Redeems(run: Run, i: nat, code: Token) {
    && i < run.Length() && run.Issued(i).Some?
    && run.Request(i).grantType == AuthorizationCodeGrant && run.Request(i).code == code
  }

  /** Event `i` presents `code` in a token request whose client authenticates for the code grant. */
  ghost predicate Presents(run: Run, i: nat, code: Token) {
    && i < run.Length() && run.EventAt(i).action.Request? && run.EventAt(i).action.op.TokenOp?
    && var req := run.EventAt(i).action.op.request;
    && req.grantType == AuthorizationCodeGrant && req.code == code
    && CorrectClient(run.Server(i), req.clientID, req.clientSecret, AuthorizationCodeGrant)
  }

  function AuthorizeAt(run: Run, i: nat): AuthorizeRequest
    requires i < run.Length() && run.Authorized(i).Some?
  {
    run.EventAt(i).action.op.authorize
  }

  lemma HandedOutShape(run: Run, i: nat, code: Token)
    requires run.Valid() && HandsOut(run, i, code)
    ensures run.EventAt(i).env.random.Some? && code == Opaque(run.EventAt(i).env.random.value)
  {
    hide NextServer, Authorize;
    ServerStep(run, i);
    AuthorizeStores(run.cfg, run.Server(i), run.EventAt(i).env, AuthorizeAt(run, i));
  }

  lemma HandedOutOnce(run: Run, i: nat, j: nat, code: Token)
    requires run.Valid() && HandsOut(run, i, code) && HandsOut(run, j, code)
    ensures i == j
  {
    hide NextServer, HandsOut;
    HandedOutShape(run, i, code);
    HandedOutShape(run, j, code);
    assert i < run.Length() && j < run.Length() by { InRange(run, i, code); InRange(run, j, code); }
    if i < j { TimeAdvances(run, i, j); }
    if j < i { TimeAdvances(run, j, i); }
  }

  lemma InRange(run: Run, i: nat, code: Token)
    requires HandsOut(run, i, code)
    ensures i < run.Length() && run.Authorized(i).Some?
  {}

  /** What a stored code says about the authorize request it was made for. */
  ghost predicate StoredFor(run: Run, i: nat, code: Token, entry: Entry<AuthCode>) {
    && HandsOut(run, i, code)
    && var req, s := AuthorizeAt(run, i), run.Server(i);
    && req.clientID in s.clients && RedirectRegistered(s.clients[req.clientID], req.redirectURI)
    && req.challenge != "" && req.challengeMethod == "S256"
    && PermittedScope(s.clients[req.clientID].scopes, req.scope) == Some(entry.value.scope)
    && entry == Entry(CodeFor(req, entry.value.scope, code), run.Now(i) + CODE_EXPIRY)
  }

  lemma {:induction false} AuthorizerOf(run: Run, n: nat, code: Token) returns (i: nat)
    requires run.Valid() && n <= run.Length() && code in run.Server(n).codes
    ensures i < n && StoredFor(run, i, code, run.Server(n).codes[code])
  {
    hide NextServer, AuthorizedBy, PermittedScope;
    if n == 0 {
      assert false;
    } else {
      ServerStep(run, n - 1);
      CodeOrigin(run.cfg, run.Server(n - 1), run.EventAt(n - 1), code);
      if code in run.Server(n - 1).codes && run.Server(n).codes[code] == run.Server(n - 1).codes[code] {
        i := AuthorizerOf(run, n - 1, code);
      } else {
        i := n - 1;
      }
    }
  }

  /** What a successful code grant found, answered, and left. */
  lemma CodeGrantShape(cfg: Config, s: State, env: Env, req: TokenRequest)
    requires req.grantType == AuthorizationCodeGrant && GrantToken(cfg, s, env, req).result.Ok?
    ensures Find(s.codes, req.code, env.now).Some?
    ensures var code, r := s.codes[req.code].value, GrantToken(cfg, s, env, req).result.value;
      && code.clientID == req.clientID && code.redirectURI == req.redirectURI
      && PkceMatches(cfg, code.challenge, code.challengeMethod, req.verifier)
      && r.scope == code.scope && r.accessToken == AccessToken(cfg, env.now, code.clientID, code.userID, code.scope)
      && r.idToken == (if IncludesIdToken(code.scope, code.userID) && env.signsId
                       then Some(IdToken(cfg, env.now, code.clientID, code.userID, code.nonce, code.authTime,
                                         UserByID(s.users, code.userID), code.scope))
                       else None)
  {
    hide IdToken, IncludesIdToken, PermittedScope;
  }

  /**
   * Every successful code grant has exactly one authorize event behind it, at most 60 seconds earlier,
   * with the same client and redirect URI. The redirect URI was registered to the client at that time,
   * the challenge was not empty and the verifier hashes to it, and user, scope, nonce and
   * authentication time of the answer are those of that event.
   */
  lemma CodeProvenance(run: Run, i: nat, code: Token) returns (j: nat)
    requires run.Valid() && Redeems(run, i, code)
    ensures j < i && HandsOut(run, j, code) && forall k :: HandsOut(run, k, code) ==> k == j
    ensures run.Now(i) - run.Now(j) <= 60 * SECOND
    ensures var a, t, r, s := AuthorizeAt(run, j), run.Request(i), run.Issued(i).value, run.Server(j);
      && a.clientID == t.clientID && a.redirectURI == t.redirectURI
      && a.clientID in s.clients && a.redirectURI in s.clients[a.clientID].redirectURIs
      && a.challenge != "" && run.cfg.s256(t.verifier) == a.challenge
      && MayHave(s.clients[a.clientID].scopes, a.scope)
      && r.scope == ScopeFor(s.clients[a.clientID].scopes, a.scope)
      && r.accessToken.AccessJwt? && r.accessToken.sub == a.userID && r.accessToken.aud == a.clientID
      && (r.idToken.Some? ==>
            && r.idToken.value.IdJwt?
            && r.idToken.value.nonce == (if a.nonce != "" then Some(a.nonce) else None)
            && r.idToken.value.authTime == a.authTime)
  {
    hide NextServer, GrantToken, PermittedScope, HandsOut, IncludesIdToken, MayHave;
    ServerStep(run, i);
    CodeGrantShape(run.cfg, run.Server(i), run.EventAt(i).env, run.Request(i));
    j := AuthorizerOf(run, i, code);
    InRange(run, j, code);
    PermittedExactly(run.Server(j).clients[AuthorizeAt(run, j).clientID].scopes, AuthorizeAt(run, j).scope);
    forall k | HandsOut(run, k, code) ensures k == j {
      HandedOutOnce(run, j, k, code);
    }
  }

  lemma {:induction false} CodeAbsentForGood(run: Run, n: nat, m: nat, code: Token)
    requires run.Valid() && n <= m <= run.Length()
    requires code.Opaque? && code.text in run.At(n).drawn && code !in run.Server(n).codes
    ensures code !in run.Server(m).codes
    decreases m
  {
    hide NextServer, AuthorizedBy, PermittedScope, RedirectRegistered;
    if n < m {
      CodeAbsentForGood(run, n, m - 1, code);
      ServerStep(run, m - 1);
      assert run.StepAt(m - 1);
      Lineage.DrawnStays(run, n, m - 1);
      if code in run.Server(m).codes {
        CodeOrigin(run.cfg, run.Server(m - 1), run.EventAt(m - 1), code);
      }
    }
  }

  lemma PresentedIsConsumed(cfg: Config, s: State, env: Env, req: TokenRequest)
    requires req.grantType == AuthorizationCodeGrant
    requires CorrectClient(s, req.clientID, req.clientSecret, AuthorizationCodeGrant)
    ensures var o := GrantToken(cfg, s, env, req);
      After(s, env.now, o.effect).codes == s.codes - {req.code}
  {
    hide IdToken, IncludesIdToken, PermittedScope, PkceMatches;
    var o := GrantToken(cfg, s, env, req);
    assert o.effect.codes.Apply(s.codes, env.now) == s.codes - {req.code};
  }

  /**
   * A code that has been handed out and is then presented by any authenticated client, successfully or
   * not, is never redeemed afterwards.
   */
  lemma PresentedOnce(run: Run, i: nat, k: nat, code: Token)
    requires run.Valid() && Presents(run, i, code) && i < k
    requires code.Opaque? && code.text in run.At(i).drawn
    ensures !Redeems(run, k, code)
  {
    hide Next, GrantToken, AuthenticateClient, CorrectClient;
    ServerStep(run, i);
    PresentedIsConsumed(run.cfg, run.Server(i), run.EventAt(i).env, run.EventAt(i).action.op.request);
    if Redeems(run, k, code) {
      CodeAbsentForGood(run, i + 1, k, code);
      ServerStep(run, k);
      CodeGrantShape(run.cfg, run.Server(k), run.EventAt(k).env, run.Request(k));
    }
  }

  /** A code yields at most one token pair. */
  lemma RedeemedOnce(run: Run, i: nat, k: nat, code: Token)
    requires run.Valid() && Redeems(run, i, code) && i < k
    ensures !Redeems(run, k, code)
  {
    hide NextServer, GrantToken, AuthenticateClient, CorrectClient;
    ServerStep(run, i);
    CodeGrantShape(run.cfg, run.Server(i), run.EventAt(i).env, run.Request(i));
    RedeemedWasPresented(run.cfg, run.Server(i), run.EventAt(i).env, run.Request(i));
    InvAlways(run, i);
    assert CodeAgrees(run.At(i).drawn, code, run.Server(i).codes[code]);
    PresentedOnce(run, i, k, code);
  }

  lemma RedeemedWasPresented(cfg: Config, s: State, env: Env, req: TokenRequest)
    requires req.grantType == AuthorizationCodeGrant && GrantToken(cfg, s, env, req).result.Ok?
    ensures CorrectClient(s, req.clientID, req.clientSecret, AuthorizationCodeGrant)
  {
    hide Issue;
  }

  // ------------------------------------------------------ when a code is accepted

  /** A live code survives every event that does not present it. */
  lemma CodeKept(run: Run, i: nat, code: Token)
    requires run.Valid() && i < run.Length() && !Presents(run, i, code)
    requires Find(run.Server(i).codes, code, run.Now(i)).Some?
    ensures code in run.Server(i + 1).codes && run.Server(i + 1).codes[code] == run.Server(i).codes[code]
  {
    hide Next, GrantToken, Authorize, Revoke, UserInfoFor, Bearer, AuthenticateClient, CorrectClient;
    var s, e, w := run.Server(i), run.EventAt(i), run.At(i);
    ServerStep(run, i);
    InvAlways(run, i);
    assert run.StepAt(i);
    assert CodeAgrees(w.drawn, code, s.codes[code]);
    match e.action {
      case Request(op) =>
        match op {
          case AuthorizeOp(req) => AuthorizeStores(run.cfg, s, e.env, req);
          case TokenOp(req) => TokenCodes(run.cfg, s, e.env, req);
          case _ => OthersLeaveCodes(run.cfg, s, e.env, op);
        }
      case SweepDelete(store, k) => assert DoomedForever(w, store, k);
      case _ =>
    }
  }

  lemma TokenCodes(cfg: Config, s: State, env: Env, req: TokenRequest)
    ensures var change := GrantToken(cfg, s, env, req).effect.codes;
      && change.stored == None
      && (change.deleted == {} || (change.deleted == {req.code} && req.grantType == AuthorizationCodeGrant
            && CorrectClient(s, req.clientID, req.clientSecret, AuthorizationCodeGrant)))
  {
    hide IdToken, IncludesIdToken, PermittedScope, PkceMatches, Authenticate, Narrowed;
  }

  lemma OthersLeaveCodes(cfg: Config, s: State, env: Env, op: Op)
    requires !op.AuthorizeOp? && !op.TokenOp?
    ensures Handle(cfg, s, env, op).effect.codes == NoChange()
  {}

  lemma {:induction false} CodeStays(run: Run, j: nat, i: nat, code: Token)
    requires run.Valid() && HandsOut(run, j, code) && j < i <= run.Length()
    requires forall k :: j < k < i ==> !Presents(run, k, code)
    requires i < run.Length() ==> run.Now(i) - run.Now(j) <= CODE_EXPIRY
    requires i == run.Length() ==> run.At(i).now - run.Now(j) <= CODE_EXPIRY
    ensures code in run.Server(i).codes && StoredFor(run, j, code, run.Server(i).codes[code])
    decreases i
  {
    hide NextServer, Presents, PermittedScope, AuthorizedBy, Authorize;
    if i == j + 1 {
      ServerStep(run, j);
      HandedOutIsStored(run, j, code);
    } else {
      ClockAndDrawsAdvance(run, i - 1, i);
      if i < run.Length() { TimeAdvances(run, i - 1, i); }
      CodeStays(run, j, i - 1, code);
      CodeKept(run, i - 1, code);
    }
  }

  lemma HandedOutIsStored(run: Run, j: nat, code: Token)
    requires run.Valid() && HandsOut(run, j, code)
    ensures code in run.Server(j + 1).codes && StoredFor(run, j, code, run.Server(j + 1).codes[code])
  {
    hide Next, Authorize;
    ServerStep(run, j);
    AuthorizeStores(run.cfg, run.Server(j), run.EventAt(j).env, AuthorizeAt(run, j));
  }

  lemma CodeGrantIff(cfg: Config, s: State, env: Env, req: TokenRequest)
    requires req.grantType == AuthorizationCodeGrant
    requires CorrectClient(s, req.clientID, req.clientSecret, AuthorizationCodeGrant)
    ensures GrantToken(cfg, s, env, req).result.Ok? <==>
      && Find(s.codes, req.code, env.now).Some? && env.signsAccess && env.random.Some?
      && var code := s.codes[req.code].value;
      && code.clientID == req.clientID && code.redirectURI == req.redirectURI
      && PkceMatches(cfg, code.challenge, code.challengeMethod, req.verifier)
      && PermittedScope(s.clients[req.clientID].scopes, code.scope).Some?
  {
    hide IdToken, IncludesIdToken, PermittedScope, PkceMatches;
  }

  /**
   * A code handed out at `j` and first presented by an authenticated client at `i` is redeemed exactly
   * when at most 60 seconds have passed, client and redirect URI are those of the authorize request, the
   * verifier hashes to its challenge, the granted scope is still permitted, and the pair can be made.
   */
  lemma RedeemedExactlyWhen(run: Run, j: nat, i: nat, code: Token)
    requires run.Valid() && HandsOut(run, j, code) && j < i && Presents(run, i, code)
    requires forall k :: j < k < i ==> !Presents(run, k, code)
    ensures var a, t := AuthorizeAt(run, j), run.EventAt(i).action.op.request;
      var env, s := run.EventAt(i).env, run.Server(i);
      && t.clientID in s.clients && a.clientID in run.Server(j).clients
      && MayHave(run.Server(j).clients[a.clientID].scopes, a.scope)
      && var granted := ScopeFor(run.Server(j).clients[a.clientID].scopes, a.scope);
      && (Redeems(run, i, code) <==>
            && run.Now(i) - run.Now(j) <= 60 * SECOND
            && t.clientID == a.clientID && t.redirectURI == a.redirectURI && run.cfg.s256(t.verifier) == a.challenge
            && MayHave(s.clients[t.clientID].scopes, granted)
            && env.signsAccess && env.random.Some?)
  {
    hide NextServer, GrantToken, PermittedScope, HandsOut, MayHave;
    var t, s := run.EventAt(i).action.op.request, run.Server(i);
    InRange(run, j, code);
    ServerStep(run, i);
    HandedOutIsStored(run, j, code);
    var a, registered := AuthorizeAt(run, j), run.Server(j).clients[AuthorizeAt(run, j).clientID].scopes;
    PermittedExactly(registered, a.scope);
    PermittedExactly(s.clients[t.clientID].scopes, ScopeFor(registered, a.scope));
    CodeGrantIff(run.cfg, s, run.EventAt(i).env, t);
    if run.Now(i) - run.Now(j) <= CODE_EXPIRY {
      CodeStays(run, j, i, code);
    } else if code in s.codes {
      var k := AuthorizerOf(run, i, code);
      HandedOutOnce(run, j, k, code);
    }
  }
}
