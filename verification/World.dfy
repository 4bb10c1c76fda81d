/**
 * Runs of the server: requests, registrations and the single steps of the background sweeps,
 * in any interleaving, under a clock that never goes back and a random source that never
 * repeats itself.
 */
module World {
  import opened Base
  import opened Model
  import opened Expiry
  import opened Protocol
  import opened Scope

  datatype StoreName = CodeStore | AccessStore | RefreshStore

  /**
   * A sweep visits a key in two steps: it compares the record's expiry with the instant `tick` its
   * round began, and later deletes the key, whatever is stored under it by then.
   */
  datatype Action =
    | Request(op: Op)
    | Register(client: Client)
    | PutUser(user: User)
    | SweepCheck(store: StoreName, key: Token, tick: int)
    | SweepDelete(store: StoreName, key: Token)

  datatype Event = Event(env: Env, action: Action)

  /** `doomed` holds the keys a sweep has found expired and not yet deleted, `drawn` every random string so far. */
  datatype World = World(server: State, doomed: set<(StoreName, Token)>, now: int, drawn: set<string>)

  predicate ExpiredAt(s: State, store: StoreName, key: Token, tick: int) {
    match store
    case CodeStore => key in s.codes && tick > s.codes[key].expiresAt
    case AccessStore => key in s.access && tick > s.access[key].expiresAt
    case RefreshStore => key in s.refresh && tick > s.refresh[key].expiresAt
  }

  function Drop(s: State, store: StoreName, key: Token): State {
    match store
    case CodeStore => s.(codes := s.codes - {key})
    case AccessStore => s.(access := s.access - {key})
    case RefreshStore => s.(refresh := s.refresh - {key})
  }

  ghost predicate Enabled(w: World, e: Event) {
    && w.now <= e.env.now
    && (e.env.random.Some? ==> e.env.random.value !in w.drawn)
    && (e.action.SweepCheck? ==> e.action.tick <= e.env.now)
    && (e.action.SweepDelete? ==> (e.action.store, e.action.key) in w.doomed)
  }

  function NextServer(cfg: Config, s: State, e: Event): State {
    match e.action
    case Request(op) => After(s, e.env.now, Handle(cfg, s, e.env, op).effect)
    case Register(client) => s.(clients := s.clients[client.id := client])
    case PutUser(user) => s.(users := SetUser(s.users, user))
    case SweepCheck(_, _, _) => s
    case SweepDelete(store, key) => Drop(s, store, key)
  }

  function Next(cfg: Config, w: World, e: Event): World {
    World(NextServer(cfg, w.server, e),
          match e.action
          case SweepCheck(store, key, tick) => if ExpiredAt(w.server, store, key, tick)
            then w.doomed + {(store, key)} else w.doomed
          case SweepDelete(store, key) => w.doomed - {(store, key)}
          case _ => w.doomed,
          e.env.now,
          w.drawn + (if e.env.random.Some? then {e.env.random.value} else {}))
  }

  function AnswerTo(cfg: Config, s: State, e: Event): Option<Answer> {
    if e.action.Request? then Some(Handle(cfg, s, e.env, e.action.op).result) else None
  }

  function IssuedIn(answer: Option<Answer>): Option<TokenResponse> {
    match answer
    case Some(TokenAnswer(Ok(r))) => Some(r)
    case _ => None
  }

  function AuthorizedIn(answer: Option<Answer>): Option<AuthorizeResult> {
    match answer
    case Some(AuthorizeAnswer(Ok(r))) => Some(r)
    case _ => None
  }

  /** The token response of a successful token request. */
  function IssuedBy(cfg: Config, s: State, e: Event): Option<TokenResponse> {
    IssuedIn(AnswerTo(cfg, s, e))
  }

  function AuthorizedBy(cfg: Config, s: State, e: Event): Option<AuthorizeResult> {
    AuthorizedIn(AnswerTo(cfg, s, e))
  }

  // --------------------------------------------------------------------- invariant

  /** The stored record says what the signed token it is stored under says. */
  ghost predicate AccessAgrees(cfg: Config, key: Token, entry: Entry<TokenInfo>) {
    && key == AccessJwt(cfg.issuer, entry.value.userID, entry.value.clientID,
                        Unix(entry.expiresAt), Unix(entry.expiresAt - ACCESS_EXPIRY), entry.value.scope)
    && entry.value.accessToken == key
  }

  ghost predicate RefreshAgrees(cfg: Config, drawn: set<string>, key: Token, entry: Entry<TokenInfo>) {
    && key.Opaque? && key.text in drawn
    && entry.value.refreshToken == Some(key)
    && entry.value.accessToken.AccessJwt?
    && entry.value.accessToken.sub == entry.value.userID
    && entry.value.accessToken.aud == entry.value.clientID
    && entry.value.accessToken.scope == entry.value.scope
  }

  ghost predicate CodeAgrees(drawn: set<string>, key: Token, entry: Entry<AuthCode>) {
    && key.Opaque? && key.text in drawn
    && entry.value.code == key
    && entry.value.challenge != "" && entry.value.challengeMethod == "S256"
  }

  /** A doomed key is one that can never be stored again, and whatever is still stored under it has expired. */
  ghost predicate DoomedForever(w: World, store: StoreName, key: Token) {
    && (key in TableKeys(w.server, store) ==> ExpiredAt(w.server, store, key, w.now))
    && match store
       case AccessStore => key.AccessJwt? && key.iat * SECOND + ACCESS_EXPIRY < w.now
       case _ => key.Opaque? && key.text in w.drawn
  }

  function TableKeys(s: State, store: StoreName): set<Token> {
    match store
    case CodeStore => s.codes.Keys
    case AccessStore => s.access.Keys
    case RefreshStore => s.refresh.Keys
  }

  ghost predicate StateOk(cfg: Config, s: State, now: int, drawn: set<string>) {
    && UsersConsistent(s.users)
    && (forall k :: k in s.codes ==> CodeAgrees(drawn, k, s.codes[k]) && s.codes[k].expiresAt <= now + CODE_EXPIRY)
    && (forall k :: k in s.access ==> AccessAgrees(cfg, k, s.access[k]) && s.access[k].expiresAt <= now + ACCESS_EXPIRY)
    && (forall k :: k in s.refresh ==>
                      RefreshAgrees(cfg, drawn, k, s.refresh[k]) && s.refresh[k].expiresAt <= now + REFRESH_EXPIRY)
  }

  ghost predicate Inv(cfg: Config, w: World) {
    && StateOk(cfg, w.server, w.now, w.drawn)
    && (forall store, key :: (store, key) in w.doomed ==> DoomedForever(w, store, key))
  }

  /** Nothing has been issued yet; clients and users may already be there. */
  ghost predicate Initial(w: World) {
    && w.server.codes == map[] && w.server.access == map[] && w.server.refresh == map[]
    && w.doomed == {} && w.drawn == {}
    && UsersConsistent(w.server.users)
  }

  // --------------------------------------------------- what one request may store

  /** What an issued response stores. */
  ghost predicate Stores(cfg: Config, env: Env, effect: Effect, clientID: string, r: TokenResponse) {
    && r.accessToken.AccessJwt?
    && r.accessToken == AccessToken(cfg, env.now, clientID, r.accessToken.sub, r.scope)
    && effect.access.stored
       == Some((r.accessToken, AccessEntry(r.accessToken, clientID, r.accessToken.sub, r.scope, env.now)))
    && (match r.refreshToken
        case None => effect.refresh.stored == None
        case Some(t) =>
          && env.random.Some? && t == Opaque(env.random.value)
          && effect.refresh.stored
             == Some((t, RefreshEntry(r.accessToken, t, clientID, r.accessToken.sub, r.scope, env.now))))
  }

  ghost predicate TokenOutcomeStores(cfg: Config, env: Env, clientID: string,
                                     o: Outcome<Result<TokenResponse, Error>>)
  {
    && o.effect.codes.stored == None
    && (o.result.Err? ==> o.effect.access.stored == None && o.effect.refresh.stored == None)
    && (o.result.Ok? ==> Stores(cfg, env, o.effect, clientID, o.result.value))
  }

  lemma CodeGrantStores(cfg: Config, s: State, env: Env, req: TokenRequest)
    ensures TokenOutcomeStores(cfg, env, req.clientID, GrantCode(cfg, s, env, req))
  {}

  lemma RefreshGrantStores(cfg: Config, s: State, env: Env, req: TokenRequest)
    ensures TokenOutcomeStores(cfg, env, req.clientID, GrantRefresh(cfg, s, env, req))
  {}

  /** A token request that fails stores nothing; one that succeeds stores exactly what it answers. */
  lemma TokenStores(cfg: Config, s: State, env: Env, req: TokenRequest)
    ensures TokenOutcomeStores(cfg, env, req.clientID, GrantToken(cfg, s, env, req))
  {
    match req.grantType {
      case AuthorizationCodeGrant => CodeGrantStores(cfg, s, env, req);
      case RefreshTokenGrant => RefreshGrantStores(cfg, s, env, req);
      case _ =>
    }
  }

  lemma AuthorizeStores(cfg: Config, s: State, env: Env, req: AuthorizeRequest)
    ensures var o := Authorize(s, env, req);
      && o.effect.access == NoChange() && o.effect.refresh == NoChange() && o.effect.codes.deleted == {}
      && (o.result.Err? ==> o.effect.codes == NoChange())
      && (o.result.Ok? ==>
            && env.random.Some? && req.clientID in s.clients
            && o.result.value == AuthorizeResult(req.redirectURI, Opaque(env.random.value), req.state)
            && RedirectRegistered(s.clients[req.clientID], req.redirectURI)
            && req.challenge != "" && req.challengeMethod == "S256"
            && var scope := PermittedScope(s.clients[req.clientID].scopes, req.scope);
            && scope.Some?
            && o.effect.codes.stored
               == Some((o.result.value.code,
                        Entry(CodeFor(req, scope.value, o.result.value.code), env.now + CODE_EXPIRY))))
  {}

  // ------------------------------------------------------------------- one step

  /** A record in the access table after an event was there before, or is the one the event issued. */
  lemma AccessOrigin(cfg: Config, s: State, e: Event, key: Token)
    requires key in NextServer(cfg, s, e).access
    ensures var entry := NextServer(cfg, s, e).access[key];
      || (key in s.access && entry == s.access[key])
      || (IssuedBy(cfg, s, e).Some? && var r := IssuedBy(cfg, s, e).value;
          && key == r.accessToken && r.accessToken.AccessJwt?
          && key == AccessToken(cfg, e.env.now, e.action.op.request.clientID, key.sub, r.scope)
          && entry == AccessEntry(key, e.action.op.request.clientID, key.sub, r.scope, e.env.now))
  {
    hide GrantToken;
    if e.action.Request? && e.action.op.TokenOp? {
      TokenStores(cfg, s, e.env, e.action.op.request);
    }
  }

  lemma RefreshOrigin(cfg: Config, s: State, e: Event, key: Token)
    requires key in NextServer(cfg, s, e).refresh
    ensures var entry := NextServer(cfg, s, e).refresh[key];
      || (key in s.refresh && entry == s.refresh[key])
      || (IssuedBy(cfg, s, e).Some? && var r := IssuedBy(cfg, s, e).value;
          && e.env.random.Some? && key == Opaque(e.env.random.value) && r.refreshToken == Some(key)
          && r.accessToken.AccessJwt?
          && r.accessToken == AccessToken(cfg, e.env.now, e.action.op.request.clientID, r.accessToken.sub, r.scope)
          && entry == RefreshEntry(r.accessToken, key, e.action.op.request.clientID,
                                   r.accessToken.sub, r.scope, e.env.now))
  {
    hide GrantToken;
    if e.action.Request? && e.action.op.TokenOp? {
      TokenStores(cfg, s, e.env, e.action.op.request);
    }
  }

  lemma CodeOrigin(cfg: Config, s: State, e: Event, key: Token)
    requires key in NextServer(cfg, s, e).codes
    ensures var entry := NextServer(cfg, s, e).codes[key];
      || (key in s.codes && entry == s.codes[key])
      || (AuthorizedBy(cfg, s, e).Some? && var req := e.action.op.authorize;
          && e.env.random.Some? && key == Opaque(e.env.random.value) && AuthorizedBy(cfg, s, e).value.code == key
          && req.clientID in s.clients && RedirectRegistered(s.clients[req.clientID], req.redirectURI)
          && req.challenge != "" && req.challengeMethod == "S256"
          && var scope := PermittedScope(s.clients[req.clientID].scopes, req.scope);
          && scope.Some? && entry == Entry(CodeFor(req, scope.value, key), e.env.now + CODE_EXPIRY))
  {
    hide GrantToken, Authorize;
    if e.action.Request? {
      match e.action.op {
        case TokenOp(req) => TokenStores(cfg, s, e.env, req);
        case AuthorizeOp(req) => AuthorizeStores(cfg, s, e.env, req);
        case _ =>
      }
    }
  }

  lemma UsersStayConsistent(cfg: Config, s: State, e: Event)
    requires UsersConsistent(s.users)
    ensures UsersConsistent(NextServer(cfg, s, e).users)
  {
    hide Handle, Change.Apply;
    if !e.action.PutUser? {
      assert NextServer(cfg, s, e).users == s.users;
    }
  }

  /** Every event keeps the stores well-formed. */
  lemma StateOkStep(cfg: Config, w: World, e: Event)
    requires StateOk(cfg, w.server, w.now, w.drawn) && Enabled(w, e)
    ensures StateOk(cfg, Next(cfg, w, e).server, e.env.now, Next(cfg, w, e).drawn)
  {
    hide NextServer, IssuedBy, AuthorizedBy, UsersConsistent;
    UsersStayConsistent(cfg, w.server, e);
    var s, t := w.server, NextServer(cfg, w.server, e);
    var drawn := Next(cfg, w, e).drawn;
    forall k | k in t.codes
      ensures CodeAgrees(drawn, k, t.codes[k]) && t.codes[k].expiresAt <= e.env.now + CODE_EXPIRY
    {
      CodeOrigin(cfg, s, e, k);
    }
    forall k | k in t.access
      ensures AccessAgrees(cfg, k, t.access[k]) && t.access[k].expiresAt <= e.env.now + ACCESS_EXPIRY
    {
      AccessOrigin(cfg, s, e, k);
    }
    forall k | k in t.refresh
      ensures RefreshAgrees(cfg, drawn, k, t.refresh[k]) && t.refresh[k].expiresAt <= e.env.now + REFRESH_EXPIRY
    {
      RefreshOrigin(cfg, s, e, k);
    }
  }

  lemma DoomedStep(cfg: Config, w: World, e: Event, store: StoreName, key: Token)
    requires Inv(cfg, w) && Enabled(w, e)
    requires (store, key) in Next(cfg, w, e).doomed
    ensures DoomedForever(Next(cfg, w, e), store, key)
  {
    if key in TableKeys(NextServer(cfg, w.server, e), store) {
      match store {
        case CodeStore => CodeOrigin(cfg, w.server, e, key);
        case AccessStore => AccessOrigin(cfg, w.server, e, key);
        case RefreshStore => RefreshOrigin(cfg, w.server, e, key);
      }
    }
  }

  lemma InvStep(cfg: Config, w: World, e: Event)
    requires Inv(cfg, w) && Enabled(w, e)
    ensures Inv(cfg, Next(cfg, w, e))
  {
    StateOkStep(cfg, w, e);
    forall store, key | (store, key) in Next(cfg, w, e).doomed
      ensures DoomedForever(Next(cfg, w, e), store, key)
    {
      DoomedStep(cfg, w, e, store, key);
    }
  }

  lemma InvInitially(cfg: Config, w: World)
    requires Initial(w)
    ensures Inv(cfg, w)
  {}

  // ------------------------------------------------------------------------ runs

  /** The world an event found, the event, and the answer it got, if it was a request. */
  datatype Moment = Moment(world: World, event: Event, answer: Option<Answer>)

  /** A run is recorded moment by moment; `last` is the world it ends in. */
  datatype Run = Run(cfg: Config, moments: seq<Moment>, last: World) {
    function Length(): nat {
      |moments|
    }

    /** The world after the first `i` events. */
    function At(i: nat): World
      requires i <= Length()
    {
      if i < |moments| then moments[i].world else last
    }

    function Server(i: nat): State
      requires i <= Length()
    {
      At(i).server
    }

    function EventAt(i: nat): Event
      requires i < Length()
    {
      moments[i].event
    }

    function Now(i: nat): int
      requires i < Length()
    {
      moments[i].event.env.now
    }

    ghost predicate StepAt(i: nat) {
      i < Length() ==>
        && Enabled(At(i), EventAt(i))
        && moments[i].answer == AnswerTo(cfg, At(i).server, EventAt(i))
        && At(i + 1) == Next(cfg, At(i), EventAt(i))
    }

    /** The run starts with nothing issued, and every moment follows from the one before. */
    ghost predicate Valid() {
      Initial(At(0)) && forall i :: StepAt(i)
    }

    function Answer(i: nat): Option<Answer>
      requires i < Length()
    {
      moments[i].answer
    }

    function Issued(i: nat): Option<TokenResponse>
      requires i < Length()
    {
      if EventAt(i).action.Request? && EventAt(i).action.op.TokenOp? then IssuedIn(moments[i].answer) else None
    }

    function Authorized(i: nat): Option<AuthorizeResult>
      requires i < Length()
    {
      if EventAt(i).action.Request? && EventAt(i).action.op.AuthorizeOp? then AuthorizedIn(moments[i].answer) else None
    }

    /** The request of a successful token event. */
    function Request(i: nat): TokenRequest
      requires i < Length() && Issued(i).Some?
    {
      EventAt(i).action.op.request
    }
  }

  /** Any enabled event may come next: every sequence of enabled events is a run. */
  lemma RunsExtend(run: Run, e: Event) returns (longer: Run)
    requires run.Valid() && Enabled(run.last, e)
    ensures longer.Valid() && longer.cfg == run.cfg && longer.Length() == run.Length() + 1
    ensures longer.moments[..run.Length()] == run.moments && longer.EventAt(run.Length()) == e
    ensures longer.At(run.Length()) == run.last && longer.last == Next(run.cfg, run.last, e)
  {
    hide Next, AnswerTo, Enabled, Initial;
    var moment := Moment(run.last, e, AnswerTo(run.cfg, run.last.server, e));
    longer := Run(run.cfg, run.moments + [moment], Next(run.cfg, run.last, e));
    forall i: nat ensures longer.StepAt(i) {
      assert run.StepAt(i);
      assert i <= run.Length() ==> longer.At(i) == run.At(i);
      assert i + 1 <= run.Length() ==> longer.At(i + 1) == run.At(i + 1);
    }
  }

  /** In every reachable world the stores are well-formed and doomed keys stay dead. */
  lemma {:induction false} InvAlways(run: Run, i: nat)
    requires run.Valid() && i <= run.Length()
    ensures Inv(run.cfg, run.At(i))
  {
    hide Next, Inv;
    if i == 0 {
      InvInitially(run.cfg, run.At(0));
    } else {
      InvAlways(run, i - 1);
      assert run.StepAt(i - 1);
      InvStep(run.cfg, run.At(i - 1), run.EventAt(i - 1));
    }
  }

  lemma ServerStep(run: Run, i: nat)
    requires run.Valid() && i < run.Length()
    ensures Enabled(run.At(i), run.EventAt(i))
    ensures run.Server(i + 1) == NextServer(run.cfg, run.Server(i), run.EventAt(i))
    ensures run.At(i).drawn <= run.At(i + 1).drawn
    ensures run.Answer(i) == AnswerTo(run.cfg, run.Server(i), run.EventAt(i))
    ensures run.Issued(i) == IssuedBy(run.cfg, run.Server(i), run.EventAt(i))
    ensures run.Authorized(i) == AuthorizedBy(run.cfg, run.Server(i), run.EventAt(i))
  {
    hide NextServer, GrantToken, Authorize, Revoke, Bearer, UserInfoFor;
    assert run.StepAt(i);
  }

  lemma StepClock(cfg: Config, w: World, e: Event)
    ensures var w' := Next(cfg, w, e);
      && w'.now == e.env.now && w.drawn <= w'.drawn
      && (e.env.random.Some? ==> e.env.random.value in w'.drawn)
  {}

  /** The clock never goes back, and what has been drawn stays drawn. */
  lemma {:induction false} ClockAndDrawsAdvance(run: Run, i: nat, j: nat)
    requires run.Valid() && i <= j <= run.Length()
    ensures i < j ==> run.Now(i) <= run.At(j).now
    ensures i < j && run.EventAt(i).env.random.Some? ==> run.EventAt(i).env.random.value in run.At(j).drawn
    decreases j - i
  {
    hide NextServer;
    if i < j {
      ClockAndDrawsAdvance(run, i, j - 1);
      StepClock(run.cfg, run.At(j - 1), run.EventAt(j - 1));
      assert run.StepAt(j - 1);
    }
  }

  lemma TimeAdvances(run: Run, i: nat, j: nat)
    requires run.Valid() && i < j < run.Length()
    ensures run.Now(i) <= run.Now(j)
    ensures run.EventAt(i).env.random.Some? ==> run.EventAt(i).env.random != run.EventAt(j).env.random
  {
    hide Next;
    ClockAndDrawsAdvance(run, i, j);
    assert run.StepAt(j);
  }
}
