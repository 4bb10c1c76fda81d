/**
 * Deleting what has expired cannot be observed. The reference server never deletes an expired record:
 * its lookups leave them in place and its sweeps do nothing. The real server, with lookups that delete
 * and sweeps that check and delete in separate steps between requests, answers every request alike.
 */
module Sweeps {
  import opened Base
  import opened Model
  import opened Expiry
  import opened Protocol
  import opened World
  import Scope

  ghost predicate SameView(a: State, b: State, now: int) {
    && a.clients == b.clients && a.users == b.users
    && SameLive(a.codes, b.codes, now) && SameLive(a.access, b.access, now) && SameLive(a.refresh, b.refresh, now)
  }

  /** One event on the reference server. */
  function ReferenceNext(cfg: Config, s: State, e: Event): State {
    match e.action
    case Request(op) => AfterKeepingExpired(s, Handle(cfg, s, e.env, op).effect)
    case Register(client) => s.(clients := s.clients[client.id := client])
    case PutUser(user) => s.(users := SetUser(s.users, user))
    case SweepCheck(_, _, _) => s
    case SweepDelete(_, _) => s
  }

  ghost predicate ReferenceStep(run: Run, states: seq<State>, i: nat) {
    i < run.Length() && i + 1 < |states| ==> states[i + 1] == ReferenceNext(run.cfg, states[i], run.EventAt(i))
  }

  /** The states the reference server goes through on the events of the run. */
  ghost predicate IsReference(run: Run, states: seq<State>) {
    && |states| == run.Length() + 1 && states[0] == run.Server(0)
    && (forall i :: ReferenceStep(run, states, i))
  }

  lemma HasReference(run: Run) returns (states: seq<State>)
    ensures IsReference(run, states)
  {
    hide ReferenceNext;
    states := [run.Server(0)];
    for n := 0 to run.Length()
      invariant |states| == n + 1 && states[0] == run.Server(0)
      invariant forall i :: ReferenceStep(run, states, i)
    {
      var prefix := states;
      states := states + [ReferenceNext(run.cfg, states[n], run.EventAt(n))];
      forall i: nat ensures ReferenceStep(run, states, i) {
        assert ReferenceStep(run, prefix, i);
      }
    }
  }

  // ------------------------------------------- answers depend on live records only

  lemma TokenDependsOnLive(cfg: Config, a: State, b: State, env: Env, req: TokenRequest)
    requires SameView(a, b, env.now)
    ensures GrantToken(cfg, a, env, req) == GrantToken(cfg, b, env, req)
  {
    hide Issue, PkceMatches, Scope.PermittedScope, Scope.Narrowed, Authenticate, Find, Scope.ScopeSet;
    assert Find(a.codes, req.code, env.now) == Find(b.codes, req.code, env.now);
    assert Find(a.refresh, req.refreshToken, env.now) == Find(b.refresh, req.refreshToken, env.now);
    forall effect, clientID, userID, scope, nonce, authTime
      ensures Issue(cfg, a, env, effect, clientID, userID, scope, nonce, authTime)
           == Issue(cfg, b, env, effect, clientID, userID, scope, nonce, authTime)
    {
      IssueDependsOnUsers(cfg, a, b, env, effect, clientID, userID, scope, nonce, authTime);
    }
  }

  lemma IssueDependsOnUsers(cfg: Config, a: State, b: State, env: Env,
                            effect: Effect, clientID: string, userID: string, scope: string,
                            nonce: string, authTime: int)
    requires a.users == b.users
    ensures Issue(cfg, a, env, effect, clientID, userID, scope, nonce, authTime)
         == Issue(cfg, b, env, effect, clientID, userID, scope, nonce, authTime)
  {}

  lemma RevokeDependsOnLive(a: State, b: State, now: int, token: Token, hint: Hint, clientID: string)
    requires SameView(a, b, now)
    ensures Revoke(a, now, token, hint, clientID) == Revoke(b, now, token, hint, clientID)
  {
    hide Find;
    assert Find(a.access, token, now) == Find(b.access, token, now);
    assert Find(a.refresh, token, now) == Find(b.refresh, token, now);
  }

  lemma UseDependsOnLive(a: State, b: State, now: int, token: Token)
    requires SameView(a, b, now)
    ensures Bearer(a, now, token) == Bearer(b, now, token)
    ensures UserInfoFor(a, now, token) == UserInfoFor(b, now, token)
  {
    hide Find;
    assert Find(a.access, token, now) == Find(b.access, token, now);
  }

  /** States with the same live records give the same answer and the same net change. */
  lemma HandleDependsOnLive(cfg: Config, a: State, b: State, env: Env, op: Op)
    requires SameView(a, b, env.now)
    ensures Handle(cfg, a, env, op) == Handle(cfg, b, env, op)
  {
    hide SameView, GrantToken, Revoke, Bearer, UserInfoFor;
    match op {
      case AuthorizeOp(req) => SameViewClients(a, b, env.now);
      case TokenOp(req) => TokenDependsOnLive(cfg, a, b, env, req);
      case RevokeOp(token, hint, clientID) => RevokeDependsOnLive(a, b, env.now, token, hint, clientID);
      case BearerOp(token) => UseDependsOnLive(a, b, env.now, token);
      case UserInfoOp(token) => UseDependsOnLive(a, b, env.now, token);
    }
  }

  lemma SameViewClients(a: State, b: State, now: int)
    requires SameView(a, b, now)
    ensures a.clients == b.clients
  {}

  lemma SameViewLater(a: State, b: State, now: int, later: int)
    requires SameView(a, b, now) && now <= later
    ensures SameView(a, b, later)
  {
    SameLiveLater(a.codes, b.codes, now, later);
    SameLiveLater(a.access, b.access, now, later);
    SameLiveLater(a.refresh, b.refresh, now, later);
  }

  /** A sweep that deletes a doomed key removes no record that is still live, however late it comes. */
  lemma SweepRemovesOnlyExpired(cfg: Config, w: World, e: Event)
    requires Inv(cfg, w) && Enabled(w, e) && e.action.SweepDelete?
    ensures SameView(NextServer(cfg, w.server, e), w.server, e.env.now)
  {
    assert DoomedForever(w, e.action.store, e.action.key);
  }

  lemma SameViewStep(cfg: Config, w: World, reference: State, e: Event)
    requires Inv(cfg, w) && Enabled(w, e) && SameView(w.server, reference, w.now)
    ensures SameView(NextServer(cfg, w.server, e), ReferenceNext(cfg, reference, e), e.env.now)
  {
    hide Handle, SameLive;
    var now := e.env.now;
    SameViewLater(w.server, reference, w.now, now);
    match e.action {
      case Request(op) =>
        HandleDependsOnLive(cfg, w.server, reference, e.env, op);
        var effect := Handle(cfg, w.server, e.env, op).effect;
        ChangeKeepsSameLive(w.server.codes, reference.codes, now, effect.codes);
        ChangeKeepsSameLive(w.server.access, reference.access, now, effect.access);
        ChangeKeepsSameLive(w.server.refresh, reference.refresh, now, effect.refresh);
      case SweepDelete(_, _) =>
        SweepRemovesOnlyExpired(cfg, w, e);
        SameViewTransitive(NextServer(cfg, w.server, e), w.server, reference, now);
      case _ =>
    }
  }

  lemma SameViewTransitive(a: State, b: State, c: State, now: int)
    requires SameView(a, b, now) && SameView(b, c, now)
    ensures SameView(a, c, now)
  {
    forall key
      ensures Find(a.codes, key, now) == Find(c.codes, key, now)
      ensures Find(a.access, key, now) == Find(c.access, key, now)
      ensures Find(a.refresh, key, now) == Find(c.refresh, key, now)
    {
      assert Find(a.codes, key, now) == Find(b.codes, key, now) == Find(c.codes, key, now);
      assert Find(a.access, key, now) == Find(b.access, key, now) == Find(c.access, key, now);
      assert Find(a.refresh, key, now) == Find(b.refresh, key, now) == Find(c.refresh, key, now);
    }
  }

  /** After any run the real server shows the same live records as the reference server. */
  lemma {:induction false} SameViewAlways(run: Run, states: seq<State>, i: nat)
    requires run.Valid() && IsReference(run, states) && i <= run.Length()
    ensures SameView(run.Server(i), states[i], run.At(i).now)
  {
    hide NextServer, ReferenceNext, SameView;
    if i == 0 {
      SameViewReflexive(states[0], run.At(0).now);
    } else {
      SameViewAlways(run, states, i - 1);
      InvAlways(run, i - 1);
      assert run.StepAt(i - 1) && ReferenceStep(run, states, i - 1);
      SameViewStep(run.cfg, run.At(i - 1), states[i - 1], run.EventAt(i - 1));
    }
  }

  lemma SameViewReflexive(a: State, now: int)
    ensures SameView(a, a, now)
  {}

  /** Every lookup finds what a lookup on the reference server finds. */
  lemma LookupsUnobservable(run: Run, states: seq<State>, i: nat, key: Token)
    requires run.Valid() && IsReference(run, states) && i < run.Length()
    ensures SameView(run.Server(i), states[i], run.Now(i))
    ensures Find(run.Server(i).codes, key, run.Now(i)) == Find(states[i].codes, key, run.Now(i))
    ensures Find(run.Server(i).access, key, run.Now(i)) == Find(states[i].access, key, run.Now(i))
    ensures Find(run.Server(i).refresh, key, run.Now(i)) == Find(states[i].refresh, key, run.Now(i))
  {
    hide Next;
    SameViewAlways(run, states, i);
    assert run.StepAt(i);
    SameViewLater(run.Server(i), states[i], run.At(i).now, run.Now(i));
  }

  /** Every request gets the answer the reference server gives. */
  lemma ExpiryUnobservable(run: Run, states: seq<State>, i: nat)
    requires run.Valid() && IsReference(run, states) && i < run.Length()
    ensures run.Answer(i) == AnswerTo(run.cfg, states[i], run.EventAt(i))
  {
    hide NextServer, Handle, SameView;
    LookupsUnobservable(run, states, i, Opaque(""));
    ServerStep(run, i);
    if run.EventAt(i).action.Request? {
      HandleDependsOnLive(run.cfg, run.Server(i), states[i], run.EventAt(i).env, run.EventAt(i).action.op);
    }
  }

  /**
   * Every expired record can be collected: from any run that ends with one, the check and the delete of a
   * sweep lead to a run that ends without it, and with everything else as it was.
   */
  lemma ExpiredIsCollected(run: Run, store: StoreName, key: Token) returns (longer: Run)
    requires run.Valid() && key in TableKeys(run.last.server, store)
    requires match store
      case CodeStore => run.last.server.codes[key].expiresAt < run.last.now
      case AccessStore => run.last.server.access[key].expiresAt < run.last.now
      case RefreshStore => run.last.server.refresh[key].expiresAt < run.last.now
    ensures longer.Valid() && longer.cfg == run.cfg && longer.Length() == run.Length() + 2
    ensures longer.moments[..run.Length()] == run.moments
    ensures TableKeys(longer.last.server, store) == TableKeys(run.last.server, store) - {key}
    ensures var s, t := run.last.server, longer.last.server;
      && t.clients == s.clients && t.users == s.users
      && t.codes == (if store.CodeStore? then s.codes - {key} else s.codes)
      && t.access == (if store.AccessStore? then s.access - {key} else s.access)
      && t.refresh == (if store.RefreshStore? then s.refresh - {key} else s.refresh)
  {
    var env := Env(run.last.now, None, true, true);
    var checked := RunsExtend(run, Event(env, SweepCheck(store, key, run.last.now)));
    longer := RunsExtend(checked, Event(env, SweepDelete(store, key)));
    assert longer.moments[..run.Length()] == checked.moments[..run.Length()];
  }

  /**
   * A whole round of both cleanup loops, taken at once, shows the same live records too, and what it leaves
   * is exactly what a lookup finds at that instant.
   */
  lemma RoundUnobservable(s: State, now: int, later: int)
    requires now <= later
    ensures SameView(s.(codes := Unexpired(s.codes, now),
                     access := Unexpired(s.access, now), refresh := Unexpired(s.refresh, now)), s, later)
    ensures forall key :: key in Unexpired(s.codes, now) <==> Find(s.codes, key, now).Some?
    ensures forall key :: key in Unexpired(s.access, now) <==> Find(s.access, key, now).Some?
    ensures forall key :: key in Unexpired(s.refresh, now) <==> Find(s.refresh, key, now).Some?
  {}
}
