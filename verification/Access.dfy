/**
 * Access tokens over whole runs: agreement between the signed claims and the stored record, the
 * exact lifetime, permanence of deletion, isolation between clients, and revocation.
 */
module Access {
  import opened Base
  import opened Model
  import opened Expiry
  import opened Protocol
  import opened World
  import opened Lineage
  import opened Decisions
  import Scope

  // ------------------------------------------------------- token and record agree

  /**
   * In a reachable state a bearer token is accepted exactly when it is stored and its exp claim is
   * still ahead; the record returned says what the claims say, and an ID token is never accepted.
   */
  lemma BearerExactly(run: Run, n: nat, now: int, token: Token)
    requires run.Valid() && n <= run.Length()
    ensures var r := Bearer(run.Server(n), now, token).result;
      && (r.Ok? <==> token in run.Server(n).access && !token.Opaque? && now < token.exp * SECOND)
      && (r.Ok? ==>
            && token.AccessJwt? && token.iss == run.cfg.issuer && token.sub == r.value.userID
            && token.aud == r.value.clientID && token.scope == r.value.scope && r.value.accessToken == token)
  {
    hide NextServer;
    InvAlways(run, n);
    if token in run.Server(n).access {
      assert AccessAgrees(run.cfg, token, run.Server(n).access[token]);
    }
  }

  /** Minting a token that is already stored keeps the client, user and scope, and the second it expires in. */
  lemma RemintKeepsRecord(run: Run, i: nat)
    requires run.Valid() && i < run.Length() && run.Issued(i).Some?
    requires run.Issued(i).value.accessToken in run.Server(i).access
    ensures var k := run.Issued(i).value.accessToken;
      && k in run.Server(i + 1).access
      && run.Server(i + 1).access[k].value == run.Server(i).access[k].value
      && Unix(run.Server(i + 1).access[k].expiresAt) == Unix(run.Server(i).access[k].expiresAt)
  {
    hide NextServer;
    var k := run.Issued(i).value.accessToken;
    IssuedShape(run, i);
    InvAlways(run, i);
    InvAlways(run, i + 1);
    assert AccessAgrees(run.cfg, k, run.Server(i).access[k]) && AccessAgrees(run.cfg, k, run.Server(i + 1).access[k]);
    RecordsHaveNoRefreshToken(run, i, k);
  }

  lemma {:induction false} RecordsHaveNoRefreshToken(run: Run, n: nat, k: Token)
    requires run.Valid() && n <= run.Length() && k in run.Server(n).access
    ensures run.Server(n).access[k].value.refreshToken == None
  {
    hide NextServer, IssuedBy;
    if n > 0 {
      ServerStep(run, n - 1);
      AccessOrigin(run.cfg, run.Server(n - 1), run.EventAt(n - 1), k);
      if k in run.Server(n - 1).access {
        RecordsHaveNoRefreshToken(run, n - 1, k);
      }
    }
  }

  // --------------------------------------------------------------- who may delete

  /** The access tokens an event deletes on purpose. */
  function DeletedAccess(cfg: Config, s: State, e: Event): set<Token> {
    if e.action.Request? then Handle(cfg, s, e.env, e.action.op).effect.access.deleted else {}
  }

  function DeletedRefresh(cfg: Config, s: State, e: Event): set<Token> {
    if e.action.Request? then Handle(cfg, s, e.env, e.action.op).effect.refresh.deleted else {}
  }

  /**
   * The event is a token request with the client's own secret and a grant it may use, or a revocation by
   * the client. Knowing a client's ID is not enough to act as it.
   */
  ghost predicate ActsAs(s: State, e: Event, clientID: string) {
    && e.action.Request?
    && match e.action.op
       case TokenOp(req) => req.clientID == clientID && CorrectClient(s, clientID, req.clientSecret, req.grantType)
       case RevokeOp(_, _, c) => c == clientID && c in s.clients
       case _ => false
  }

  /** The refresh token an event presents, if any. */
  function PresentedRefresh(e: Event): Option<Token> {
    match e.action
    case Request(TokenOp(req)) => if req.grantType == RefreshTokenGrant then Some(req.refreshToken) else None
    case Request(RevokeOp(token, _, _)) => Some(token)
    case _ => None
  }

  /**
   * An access token is deleted on purpose only by a revocation that names it, or by a refresh or
   * revocation that presents the live refresh token it was issued with; both as its own client.
   */
  lemma WhoDeletes(cfg: Config, w: World, e: Event, key: Token)
    requires Inv(cfg, w) && key in DeletedAccess(cfg, w.server, e)
    ensures key.AccessJwt? && ActsAs(w.server, e, key.aud)
    ensures || (e.action.op.RevokeOp? && e.action.op.token == key && Find(w.server.access, key, e.env.now).Some?)
            || (PresentedRefresh(e).Some? && var r := PresentedRefresh(e).value;
                Find(w.server.refresh, r, e.env.now).Some? && w.server.refresh[r].value.accessToken == key)
  {
    hide Authorize, GrantToken, UserInfoFor, CorrectClient;
    var s := w.server;
    match e.action.op {
      case TokenOp(req) => TokenDeletes(cfg, s, e.env, req);
      case RevokeOp(token, _, _) =>
        if token in s.access { assert AccessAgrees(cfg, token, s.access[token]); }
      case AuthorizeOp(req) => AuthorizeStores(cfg, s, e.env, req);
      case _ => BearerDeletesNothing(s, e.env.now, e.action.op.bearer);
    }
    if PresentedRefresh(e).Some? && PresentedRefresh(e).value in s.refresh {
      assert RefreshAgrees(cfg, w.drawn, PresentedRefresh(e).value, s.refresh[PresentedRefresh(e).value]);
    }
  }

  lemma BearerDeletesNothing(s: State, now: int, token: Token)
    ensures UserInfoFor(s, now, token).effect.access.deleted == {} == Bearer(s, now, token).effect.access.deleted
    ensures UserInfoFor(s, now, token).effect.refresh == NoChange() == Bearer(s, now, token).effect.refresh
    ensures UserInfoFor(s, now, token).effect.codes == NoChange() == Bearer(s, now, token).effect.codes
  {}

  lemma TokenDeletes(cfg: Config, s: State, env: Env, req: TokenRequest)
    ensures var effect := GrantToken(cfg, s, env, req).effect;
      || (effect.access.deleted == {} && effect.refresh.deleted == {})
      || (req.grantType == RefreshTokenGrant && Find(s.refresh, req.refreshToken, env.now).Some?
          && var prior := s.refresh[req.refreshToken].value;
          && prior.clientID == req.clientID
          && CorrectClient(s, req.clientID, req.clientSecret, req.grantType)
          && effect.access.deleted == {prior.accessToken} && effect.refresh.deleted == {req.refreshToken})
  {
    hide IdToken, IncludesIdToken, PkceMatches, Authenticate, Scope.PermittedScope, Scope.Narrowed;
  }

  /** A refresh token is deleted on purpose only by the client it was issued to. */
  lemma WhoDeletesRefresh(cfg: Config, s: State, e: Event, key: Token)
    requires key in DeletedRefresh(cfg, s, e) && key in s.refresh
    ensures ActsAs(s, e, s.refresh[key].value.clientID) && PresentedRefresh(e) == Some(key)
  {
    hide Authorize, GrantPassword, GrantClientCredentials, UserInfoFor;
    match e.action.op {
      case TokenOp(req) => TokenDeletes(cfg, s, e.env, req);
      case AuthorizeOp(req) => AuthorizeStores(cfg, s, e.env, req);
      case RevokeOp(_, _, _) =>
      case _ => BearerDeletesNothing(s, e.env.now, e.action.op.bearer);
    }
  }

  // ----------------------------------------------------------- what one event keeps

  lemma StoredOnlyByIssuing(cfg: Config, s: State, e: Event)
    requires e.action.Request? && !e.action.op.TokenOp?
    ensures var effect := Handle(cfg, s, e.env, e.action.op).effect;
      effect.access.stored == None && effect.refresh.stored == None
  {}

  /** A live access record survives every event that does not delete it on purpose; no sweep removes it. */
  lemma AccessKept(cfg: Config, w: World, e: Event, key: Token)
    requires Inv(cfg, w) && Enabled(w, e)
    requires Find(w.server.access, key, e.env.now).Some? && key !in DeletedAccess(cfg, w.server, e)
    ensures key in NextServer(cfg, w.server, e).access
    ensures NextServer(cfg, w.server, e).access[key] == w.server.access[key]
      || (IssuedBy(cfg, w.server, e).Some? && IssuedBy(cfg, w.server, e).value.accessToken == key)
  {
    hide GrantToken, Authorize, Revoke, UserInfoFor, Bearer;
    match e.action {
      case Request(op) =>
        if op.TokenOp? {
          TokenStores(cfg, w.server, e.env, op.request);
        } else {
          StoredOnlyByIssuing(cfg, w.server, e);
        }
      case SweepDelete(store, k) => assert DoomedForever(w, store, k);
      case _ =>
    }
  }

  lemma RefreshKept(cfg: Config, w: World, e: Event, key: Token)
    requires Inv(cfg, w) && Enabled(w, e)
    requires Find(w.server.refresh, key, e.env.now).Some? && key !in DeletedRefresh(cfg, w.server, e)
    ensures key in NextServer(cfg, w.server, e).refresh
    ensures NextServer(cfg, w.server, e).refresh[key] == w.server.refresh[key]
  {
    hide GrantToken, Authorize, Revoke, UserInfoFor, Bearer;
    assert RefreshAgrees(cfg, w.drawn, key, w.server.refresh[key]);
    match e.action {
      case Request(op) =>
        if op.TokenOp? {
          TokenStores(cfg, w.server, e.env, op.request);
        } else {
          StoredOnlyByIssuing(cfg, w.server, e);
        }
      case SweepDelete(store, k) => assert DoomedForever(w, store, k);
      case _ =>
    }
  }

  // ------------------------------------------------------------------- permanence

  /** An access token that comes back was minted in between, in its own second, for the same client, user and scope. */
  lemma {:induction false} BackOnlyByMint(run: Run, n: nat, m: nat, key: Token) returns (i: nat)
    requires run.Valid() && n <= m <= run.Length()
    requires key !in run.Server(n).access && key in run.Server(m).access
    ensures n <= i < m && run.Issued(i).Some? && run.Issued(i).value.accessToken == key
    ensures key.AccessJwt? && Unix(run.Now(i)) == key.iat
    ensures run.Request(i).clientID == key.aud && run.Issued(i).value.scope == key.scope
    decreases m
  {
    hide NextServer, IssuedBy;
    if n == m {
      assert false;
    } else if key in run.Server(m - 1).access {
      i := BackOnlyByMint(run, n, m - 1, key);
    } else {
      ServerStep(run, m - 1);
      AccessOrigin(run.cfg, run.Server(m - 1), run.EventAt(m - 1), key);
      i := m - 1;
    }
  }

  /** Once a token is absent in a later second than its iat, no continuation of the run accepts it. */
  lemma AbsentForever(run: Run, n: nat, m: nat, key: Token)
    requires run.Valid() && n <= m < run.Length()
    requires key.AccessJwt? && key !in run.Server(n).access && key.iat < Unix(run.Now(n))
    ensures Bearer(run.Server(m), run.Now(m), key).result.Err?
  {
    hide NextServer;
    if key in run.Server(m).access {
      var i := BackOnlyByMint(run, n, m, key);
      if n < i { TimeAdvances(run, n, i); }
      assert false;
    }
  }

  // --------------------------------------------------------------------- lifetime

  lemma {:induction false} StaysStored(run: Run, i: nat, j: nat)
    requires run.Valid() && i < j <= run.Length() && run.Issued(i).Some? && run.Issued(i).value.accessToken.AccessJwt?
    requires j < run.Length() ==> run.Now(j) < run.Issued(i).value.accessToken.exp * SECOND
    requires j == run.Length() ==> run.At(j).now < run.Issued(i).value.accessToken.exp * SECOND
    requires forall k :: i < k < j ==>
      run.Issued(i).value.accessToken !in DeletedAccess(run.cfg, run.Server(k), run.EventAt(k))
    ensures run.Issued(i).value.accessToken in run.Server(j).access
    decreases j
  {
    hide NextServer, DeletedAccess;
    var key := run.Issued(i).value.accessToken;
    IssuedShape(run, i);
    if i + 1 < j {
      ClockAndDrawsAdvance(run, j - 1, j);
      if j < run.Length() { TimeAdvances(run, j - 1, j); }
      StaysStored(run, i, j - 1);
      InvAlways(run, j - 1);
      assert AccessAgrees(run.cfg, key, run.Server(j - 1).access[key]);
      assert run.StepAt(j - 1);
      ServerStep(run, j - 1);
      AccessKept(run.cfg, run.At(j - 1), run.EventAt(j - 1), key);
    }
  }

  lemma AnnouncedLifetime(cfg: Config, s: State, env: Env, req: TokenRequest)
    requires GrantToken(cfg, s, env, req).result.Ok?
    ensures GrantToken(cfg, s, env, req).result.value.expiresIn == 7200
  {
    hide IdToken, IncludesIdToken, PkceMatches, Authenticate, RefreshedScope, Scope.PermittedScope, Scope.ScopeSet;
  }

  /**
   * A token issued by event `i` and not deleted on purpose is accepted by every later event up to, and
   * not including, its exp second, which lies more than 7199 s and at most 7200 s after it was issued. The
   * response announces the difference of exp and iat.
   */
  lemma BearerLifetime(run: Run, i: nat, j: nat)
    requires run.Valid() && i < j < run.Length() && run.Issued(i).Some?
    requires forall k :: i < k < j ==>
      run.Issued(i).value.accessToken !in DeletedAccess(run.cfg, run.Server(k), run.EventAt(k))
    ensures run.Issued(i).value.accessToken.AccessJwt?
    ensures var key := run.Issued(i).value.accessToken;
      && 7199 * SECOND < key.exp * SECOND - run.Now(i) <= 7200 * SECOND
      && run.Issued(i).value.expiresIn == key.exp - key.iat == 7200
      && (Bearer(run.Server(j), run.Now(j), key).result.Ok? <==> run.Now(j) < key.exp * SECOND)
  {
    hide NextServer, Bearer, DeletedAccess;
    var key := run.Issued(i).value.accessToken;
    IssuedShape(run, i);
    ServerStep(run, i);
    AnnouncedLifetime(run.cfg, run.Server(i), run.EventAt(i).env, run.Request(i));
    BearerExactly(run, j, run.Now(j), key);
    if run.Now(j) < key.exp * SECOND {
      StaysStored(run, i, j);
    }
  }

  // ---------------------------------------------------------- exact acceptance

  /** The access token that event `i` issued, if it issued any. */
  function AccessOf(run: Run, i: nat): Option<Token> {
    if i < run.Length() && run.Issued(i).Some? then Some(run.Issued(i).value.accessToken) else None
  }

  /** Event `i` minted `key`, and no event strictly between `i` and `j` deletes it on purpose. */
  ghost predicate MintedAndKept(run: Run, i: nat, j: nat, key: Token) {
    && i < j <= run.Length() && AccessOf(run, i) == Some(key)
    && (forall k :: i < k < j ==> key !in DeletedAccess(run.cfg, run.Server(k), run.EventAt(k)))
  }

  lemma DeletedIsGone(cfg: Config, s: State, e: Event, key: Token)
    requires key in DeletedAccess(cfg, s, e)
    requires IssuedBy(cfg, s, e).Some? ==> IssuedBy(cfg, s, e).value.accessToken != key
    ensures key !in NextServer(cfg, s, e).access
  {
    hide GrantToken, Authorize, Revoke, UserInfoFor, Bearer;
    if e.action.op.TokenOp? {
      TokenStores(cfg, s, e.env, e.action.op.request);
    } else {
      StoredOnlyByIssuing(cfg, s, e);
    }
  }

  /** A stored access token was minted by an event since which nothing has deleted it on purpose. */
  lemma {:induction false} LastMint(run: Run, j: nat, key: Token) returns (i: nat)
    requires run.Valid() && j <= run.Length() && key in run.Server(j).access
    ensures MintedAndKept(run, i, j, key)
    decreases j
  {
    hide NextServer, IssuedBy, DeletedAccess;
    if j == 0 {
      assert false;
    } else if AccessOf(run, j - 1) == Some(key) {
      i := j - 1;
    } else {
      ServerStep(run, j - 1);
      AccessOrigin(run.cfg, run.Server(j - 1), run.EventAt(j - 1), key);
      i := LastMint(run, j - 1, key);
      if key in DeletedAccess(run.cfg, run.Server(j - 1), run.EventAt(j - 1)) {
        DeletedIsGone(run.cfg, run.Server(j - 1), run.EventAt(j - 1), key);
        assert false;
      }
    }
  }

  lemma BearerErrors(s: State, now: int, key: Token)
    ensures var r := Bearer(s, now, key).result;
      && (r == Err(InvalidToken) <==> key.Opaque? || key.exp * SECOND <= now)
      && (r.Err? ==> r.error == InvalidToken || r.error == TokenNotFoundOrRevoked)
  {}

  /**
   * At any event of a run a bearer token is accepted exactly when it is an access token whose exp second
   * is still ahead, and some earlier event minted it and no event since then deleted it on purpose. A string
   * without a valid signature or past its exp second is an invalid token, any other refused one is unknown.
   */
  lemma AcceptedExactlyWhen(run: Run, j: nat, key: Token)
    requires run.Valid() && j < run.Length()
    ensures var r := Bearer(run.Server(j), run.Now(j), key).result;
      && (r.Ok? <==>
            key.AccessJwt? && run.Now(j) < key.exp * SECOND && exists i: nat :: MintedAndKept(run, i, j, key))
      && (r == Err(InvalidToken) <==> key.Opaque? || key.exp * SECOND <= run.Now(j))
      && (r.Err? ==> r.error == InvalidToken || r.error == TokenNotFoundOrRevoked)
  {
    hide NextServer, DeletedAccess, Bearer;
    BearerErrors(run.Server(j), run.Now(j), key);
    BearerExactly(run, j, run.Now(j), key);
    if Bearer(run.Server(j), run.Now(j), key).result.Ok? {
      var i := LastMint(run, j, key);
    }
    if i: nat :| MintedAndKept(run, i, j, key) {
      BearerLifetime(run, i, j);
    }
  }

  lemma {:induction false} RefreshStays(run: Run, i: nat, j: nat, token: Token)
    requires run.Valid() && IssuesRefresh(run, i, token) && i < j <= run.Length()
    requires j < run.Length() ==> run.Now(j) - run.Now(i) <= REFRESH_EXPIRY
    requires j == run.Length() ==> run.At(j).now - run.Now(i) <= REFRESH_EXPIRY
    requires forall k :: i < k < j ==> token !in DeletedRefresh(run.cfg, run.Server(k), run.EventAt(k))
    ensures token in run.Server(j).refresh && run.Server(j).refresh[token].expiresAt == run.Now(i) + REFRESH_EXPIRY
    decreases j
  {
    hide NextServer, DeletedRefresh, Inv, IssuedBy;
    if i + 1 == j {
      IssuedShape(run, i);
    } else {
      ClockAndDrawsAdvance(run, j - 1, j);
      if j < run.Length() { TimeAdvances(run, j - 1, j); }
      RefreshStays(run, i, j - 1, token);
      InvAlways(run, j - 1);
      assert run.StepAt(j - 1);
      ServerStep(run, j - 1);
      RefreshKept(run.cfg, run.At(j - 1), run.EventAt(j - 1), token);
    }
  }

  /**
   * A refresh token that nobody exchanges or revokes is found by every later event of the next 24 hours,
   * and by none after.
   */
  lemma RefreshLifetime(run: Run, i: nat, j: nat, token: Token)
    requires run.Valid() && IssuesRefresh(run, i, token) && i < j < run.Length()
    requires forall k :: i < k < j ==> token !in DeletedRefresh(run.cfg, run.Server(k), run.EventAt(k))
    ensures Find(run.Server(j).refresh, token, run.Now(j)).Some? <==> run.Now(j) - run.Now(i) <= 86400 * SECOND
  {
    hide NextServer, DeletedRefresh;
    if run.Now(j) - run.Now(i) <= REFRESH_EXPIRY {
      RefreshStays(run, i, j, token);
    } else if token in run.Server(j).refresh {
      var k := IssuerOf(run, j, token);
      IssuerUnique(run, i, k, token);
    }
  }

  // -------------------------------------------------------------------- isolation

  /** The live records of one client. */
  function LiveOf(table: Table<TokenInfo>, clientID: string, now: int): Table<TokenInfo> {
    map key | key in table && now <= table[key].expiresAt && table[key].value.clientID == clientID :: table[key]
  }

  lemma IssuedToAuthenticated(cfg: Config, s: State, e: Event)
    requires IssuedBy(cfg, s, e).Some?
    ensures ActsAs(s, e, e.action.op.request.clientID)
  {
    hide Issue, PkceMatches, Authenticate, RefreshedScope, Scope.PermittedScope, Scope.ScopeSet;
  }

  /** An event that does not act as a client leaves that client's live tokens exactly as they were. */
  lemma OthersUntouched(cfg: Config, w: World, e: Event, clientID: string)
    requires Inv(cfg, w) && Enabled(w, e) && !ActsAs(w.server, e, clientID)
    ensures LiveOf(NextServer(cfg, w.server, e).access, clientID, e.env.now)
      == LiveOf(w.server.access, clientID, e.env.now)
    ensures LiveOf(NextServer(cfg, w.server, e).refresh, clientID, e.env.now)
      == LiveOf(w.server.refresh, clientID, e.env.now)
  {
    hide NextServer, ActsAs, Inv;
    var s, t := w.server, NextServer(cfg, w.server, e);
    forall key
      ensures key in LiveOf(t.access, clientID, e.env.now) <==> key in LiveOf(s.access, clientID, e.env.now)
      ensures key in LiveOf(t.access, clientID, e.env.now) ==> t.access[key] == s.access[key]
    {
      AccessUntouched(cfg, w, e, clientID, key);
    }
    forall key
      ensures key in LiveOf(t.refresh, clientID, e.env.now) <==> key in LiveOf(s.refresh, clientID, e.env.now)
      ensures key in LiveOf(t.refresh, clientID, e.env.now) ==> t.refresh[key] == s.refresh[key]
    {
      RefreshUntouched(cfg, w, e, clientID, key);
    }
  }

  lemma AccessUntouched(cfg: Config, w: World, e: Event, clientID: string, key: Token)
    requires Inv(cfg, w) && Enabled(w, e) && !ActsAs(w.server, e, clientID)
    ensures var s, t := w.server, NextServer(cfg, w.server, e);
      && (key in LiveOf(t.access, clientID, e.env.now) <==> key in LiveOf(s.access, clientID, e.env.now))
      && (key in LiveOf(t.access, clientID, e.env.now) ==> t.access[key] == s.access[key])
  {
    hide NextServer, DeletedAccess, IssuedBy, ActsAs;
    var s, t := w.server, NextServer(cfg, w.server, e);
    if IssuedBy(cfg, s, e).Some? { IssuedToAuthenticated(cfg, s, e); }
    if key in LiveOf(t.access, clientID, e.env.now) {
      AccessOrigin(cfg, s, e, key);
    }
    if key in LiveOf(s.access, clientID, e.env.now) {
      assert AccessAgrees(cfg, key, s.access[key]);
      if key in DeletedAccess(cfg, s, e) {
        WhoDeletes(cfg, w, e, key);
        assert false;
      }
      AccessKept(cfg, w, e, key);
      AccessOrigin(cfg, s, e, key);
    }
  }

  lemma RefreshUntouched(cfg: Config, w: World, e: Event, clientID: string, key: Token)
    requires Inv(cfg, w) && Enabled(w, e) && !ActsAs(w.server, e, clientID)
    ensures var s, t := w.server, NextServer(cfg, w.server, e);
      && (key in LiveOf(t.refresh, clientID, e.env.now) <==> key in LiveOf(s.refresh, clientID, e.env.now))
      && (key in LiveOf(t.refresh, clientID, e.env.now) ==> t.refresh[key] == s.refresh[key])
  {
    hide NextServer, DeletedRefresh, IssuedBy, ActsAs;
    var s, t := w.server, NextServer(cfg, w.server, e);
    if IssuedBy(cfg, s, e).Some? { IssuedToAuthenticated(cfg, s, e); }
    if key in LiveOf(t.refresh, clientID, e.env.now) {
      RefreshOrigin(cfg, s, e, key);
    }
    if key in LiveOf(s.refresh, clientID, e.env.now) {
      if key in DeletedRefresh(cfg, s, e) {
        WhoDeletesRefresh(cfg, s, e, key);
        assert false;
      }
      RefreshKept(cfg, w, e, key);
    }
  }

  /** While no event acts as a client, its live tokens only change by expiring. */
  lemma {:induction false} Isolation(run: Run, i: nat, j: nat, clientID: string)
    requires run.Valid() && i <= j <= run.Length()
    requires forall k :: i <= k < j ==> !ActsAs(run.Server(k), run.EventAt(k), clientID)
    ensures LiveOf(run.Server(j).access, clientID, run.At(j).now)
      == LiveOf(run.Server(i).access, clientID, run.At(j).now)
    ensures LiveOf(run.Server(j).refresh, clientID, run.At(j).now)
      == LiveOf(run.Server(i).refresh, clientID, run.At(j).now)
    decreases j
  {
    hide NextServer, ActsAs;
    if i < j {
      Isolation(run, i, j - 1, clientID);
      InvAlways(run, j - 1);
      assert run.StepAt(j - 1);
      var w, e := run.At(j - 1), run.EventAt(j - 1);
      OthersUntouched(run.cfg, w, e, clientID);
      LiveOfLater(w.server.access, run.Server(i).access, clientID, w.now, e.env.now);
      LiveOfLater(w.server.refresh, run.Server(i).refresh, clientID, w.now, e.env.now);
    }
  }

  lemma LiveOfLater(a: Table<TokenInfo>, b: Table<TokenInfo>, clientID: string, now: int, later: int)
    requires LiveOf(a, clientID, now) == LiveOf(b, clientID, now) && now <= later
    ensures LiveOf(a, clientID, later) == LiveOf(b, clientID, later)
  {
    forall key
      ensures key in LiveOf(a, clientID, later) <==> key in LiveOf(b, clientID, later)
      ensures key in LiveOf(a, clientID, later) ==> a[key] == b[key]
    {
      assert key in LiveOf(a, clientID, now) <==> key in LiveOf(b, clientID, now);
      if key in LiveOf(a, clientID, later) {
        assert LiveOf(a, clientID, now)[key] == LiveOf(b, clientID, now)[key];
      }
      if key in LiveOf(b, clientID, later) {
        assert LiveOf(a, clientID, now)[key] == LiveOf(b, clientID, now)[key];
      }
    }
  }
}
