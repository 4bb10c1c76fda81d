/**
 * Concrete runs, one for each promise that the code keeps only under a condition: every run meets the
 * premises of the general theorem and falls under its exception.
 */
module Examples {
  import opened Base
  import opened Model
  import opened Expiry
  import opened Scope
  import opened Protocol
  import opened World
  import opened Lineage
  import opened Access
  import opened Requests
  import opened Revocation

  // ---------------------------------------------------------------------- fixtures

  // A client with an empty scope list that may use the password and refresh grants, and its two requests.
  const OPEN_CLIENT: Client := Client("c", "s", [], [], [PasswordGrant, RefreshTokenGrant])

  const PASSWORD_REQUEST: TokenRequest :=
    TokenRequest(PasswordGrant, "c", "s", Opaque(""), "", "", "n", "p", Opaque(""), "")

  const ADMIN_REQUEST: TokenRequest :=
    TokenRequest(RefreshTokenGrant, "c", "s", Opaque(""), "", "admin", "", "", Opaque("r"), "")

  function StartWorld(user: User): World {
    World(State(map["c" := OPEN_CLIENT], Users(map[user.id := user], map["n" := user]), map[], map[], map[]), {}, 0, {})
  }

  /** A request at instant 0. */
  function RequestEvent(op: Op, random: Option<string>, signsAccess: bool): Event {
    Event(Env(0, random, signsAccess, true), Action.Request(op))
  }

  /** The access token every password grant of the example gets: all of them happen in one second. */
  function Key(cfg: Config, user: User): Token {
    AccessToken(cfg, 0, "c", user.id, "")
  }

  /** The tables after a password grant that drew `random`. */
  function Granted(cfg: Config, s: State, user: User, random: string): State {
    var key, token := Key(cfg, user), Opaque(random);
    s.(access := s.access[key := AccessEntry(key, "c", user.id, "", 0)],
       refresh := s.refresh[token := RefreshEntry(key, token, "c", user.id, "", 0)])
  }

  ghost predicate CanLogIn(cfg: Config, user: User) {
    cfg.passwordGrantConfigured && cfg.passwordMatches(user.passwordHash, "p")
  }

  lemma PasswordPair(cfg: Config, s: State, user: User, random: string)
    requires CanLogIn(cfg, user) && "c" in s.clients && s.clients["c"] == OPEN_CLIENT
    requires "n" in s.users.byUsername && s.users.byUsername["n"] == user
    ensures var e := RequestEvent(TokenOp(PASSWORD_REQUEST), Some(random), true);
      && NextServer(cfg, s, e) == Granted(cfg, s, user, random)
      && IssuedBy(cfg, s, e).Some? && IssuedBy(cfg, s, e).value.accessToken == Key(cfg, user)
      && IssuedBy(cfg, s, e).value.scope == "" && IssuedBy(cfg, s, e).value.refreshToken == Some(Opaque(random))
  {
    hide IdToken, IncludesIdToken;
    var e := RequestEvent(TokenOp(PASSWORD_REQUEST), Some(random), true);
    assert NextServer(cfg, s, e).access == Granted(cfg, s, user, random).access;
    assert NextServer(cfg, s, e).refresh == Granted(cfg, s, user, random).refresh;
    assert NextServer(cfg, s, e).codes == s.codes;
  }

  lemma AdminPair(cfg: Config, s: State)
    requires "c" in s.clients && s.clients["c"] == OPEN_CLIENT && Opaque("r") in s.refresh
    requires var entry := s.refresh[Opaque("r")];
      entry.value.clientID == "c" && entry.value.scope == "" && entry.expiresAt > 0
    ensures var e := RequestEvent(TokenOp(ADMIN_REQUEST), Some("r2"), true);
      IssuedBy(cfg, s, e).Some? && IssuedBy(cfg, s, e).value.scope == "admin"
  {
    hide IdToken, IncludesIdToken;
  }

  lemma TwoDraws()
    ensures "r2" != "r"
  {
    assert |"r2"| != |"r"|;
  }

  /** The run of one password grant. */
  lemma OneGrant(cfg: Config, user: User) returns (run: Run)
    requires CanLogIn(cfg, user)
    ensures run.cfg == cfg && run.Valid() && run.Length() == 1 && IsRoot(run, 0) && IsLineage(run, [0])
    ensures AccessOf(run, 0) == Some(Key(cfg, user)) && IssuesRefresh(run, 0, Opaque("r"))
    ensures run.Issued(0).value.scope == ""
    ensures run.last == World(Granted(cfg, StartWorld(user).server, user, "r"), {}, 0, {"r"})
  {
    hide NextServer, AnswerTo, IssuedBy;
    run := Run(cfg, [], StartWorld(user));
    assert run.Valid();
    run := RunsExtend(run, RequestEvent(TokenOp(PASSWORD_REQUEST), Some("r"), true));
    PasswordPair(cfg, StartWorld(user).server, user, "r");
    ServerStep(run, 0);
  }

  // ------------------------------------------------------------------ the four runs

  /**
   * A run in which a refresh widens the scope: a password grant with no scope, for a client with an empty
   * scope list, is followed by a refresh that asks for "admin" and gets it.
   */
  lemma RefreshWidensFromEmpty(cfg: Config, user: User) returns (run: Run)
    requires CanLogIn(cfg, user)
    ensures run.cfg == cfg && run.Valid() && run.Length() == 2 && IsLineage(run, [0, 1])
    ensures run.Issued(0).Some? && run.Issued(0).value.scope == ""
    ensures run.Issued(1).Some? && run.Issued(1).value.scope == "admin"
    ensures !(ScopeSet(run.Issued(1).value.scope) <= ScopeSet(run.Issued(0).value.scope))
  {
    hide NextServer, AnswerTo, IssuedBy, ScopeSet;
    var first := OneGrant(cfg, user);
    TwoDraws();
    run := RunsExtend(first, RequestEvent(TokenOp(ADMIN_REQUEST), Some("r2"), true));
    ServerStep(run, 1);
    AdminPair(cfg, run.Server(1));
    assert run.moments[0] == first.moments[0];
    assert IsRoot(run, 0) && Rotates(run, 0, 1);
    AdminIsNotEmpty();
  }

  lemma AdminIsNotEmpty()
    ensures !(ScopeSet("admin") <= ScopeSet(""))
  {
    FieldsOfToken("admin");
    assert "admin" in ScopeSet("admin");
  }

  lemma WrongHintDoesNothing(cfg: Config, s: State)
    requires "c" in s.clients && Opaque("r") !in s.access
    ensures var e := RequestEvent(RevokeOp(Opaque("r"), AccessTokenHint, "c"), None, true);
      AnswerTo(cfg, s, e) == Some(RevokeAnswer(Ok(()))) && NextServer(cfg, s, e) == s
  {
    var e := RequestEvent(RevokeOp(Opaque("r"), AccessTokenHint, "c"), None, true);
    assert NextServer(cfg, s, e).access == s.access;
    assert NextServer(cfg, s, e).refresh == s.refresh;
    assert NextServer(cfg, s, e).codes == s.codes;
  }

  /**
   * A run in which a revocation answers success and revokes nothing: the client gives its own live refresh
   * token with the hint of an access token, and the next request exchanges the token.
   */
  lemma WrongHintKeepsToken(cfg: Config, user: User) returns (run: Run)
    requires CanLogIn(cfg, user)
    ensures run.cfg == cfg && run.Valid() && run.Length() == 3
    ensures IssuesRefresh(run, 0, Opaque("r"))
    ensures run.EventAt(1).action == Action.Request(RevokeOp(Opaque("r"), AccessTokenHint, "c"))
    ensures LiveTokenOf(run.Server(1), run.Now(1), Opaque("r"), "c") && run.Answer(1) == Some(RevokeAnswer(Ok(())))
    ensures Exchanges(run, 2, Opaque("r"))
  {
    hide NextServer, AnswerTo, IssuedBy;
    var first := OneGrant(cfg, user);
    var second := RunsExtend(first, RequestEvent(RevokeOp(Opaque("r"), AccessTokenHint, "c"), None, true));
    ServerStep(second, 1);
    WrongHintDoesNothing(cfg, second.Server(1));
    TwoDraws();
    run := RunsExtend(second, RequestEvent(TokenOp(ADMIN_REQUEST), Some("r2"), true));
    assert run.moments[0] == first.moments[0] && run.moments[1] == second.moments[1];
    ServerStep(run, 2);
    AdminPair(cfg, run.Server(2));
  }

  lemma FailingSignerDeletes(cfg: Config, s: State)
    requires "c" in s.clients && s.clients["c"] == OPEN_CLIENT && Opaque("r") in s.refresh
    requires var entry := s.refresh[Opaque("r")];
      entry.value.clientID == "c" && entry.value.scope == "" && entry.expiresAt > 0
    ensures var e := RequestEvent(TokenOp(ADMIN_REQUEST), None, false);
      && RefreshAccepted(s, 0, ADMIN_REQUEST)
      && AnswerTo(cfg, s, e) == Some(TokenAnswer(Err(SigningFailed)))
      && NextServer(cfg, s, e).clients == s.clients && Opaque("r") !in NextServer(cfg, s, e).refresh
  {}

  lemma UnknownRefresh(cfg: Config, s: State, env: Env)
    requires "c" in s.clients && s.clients["c"] == OPEN_CLIENT && Opaque("r") !in s.refresh
    ensures GrantToken(cfg, s, env, ADMIN_REQUEST).result == Err(RefreshTokenNotFound)
  {}

  /**
   * A run in which a refused request costs a live token: the signer fails after all checks of a refresh have
   * passed, and the retry is told that the refresh token does not exist.
   */
  lemma FailingSignerLosesToken(cfg: Config, user: User) returns (run: Run)
    requires CanLogIn(cfg, user)
    ensures run.cfg == cfg && run.Valid() && run.Length() == 3
    ensures IssuesRefresh(run, 0, Opaque("r"))
    ensures run.EventAt(1).action == run.EventAt(2).action == Action.Request(TokenOp(ADMIN_REQUEST))
    ensures Refused(run, 1) && AcceptedRefresh(run, 1)
    ensures run.Answer(1) == Some(TokenAnswer(Err(SigningFailed)))
    ensures run.Answer(2) == Some(TokenAnswer(Err(RefreshTokenNotFound)))
  {
    hide NextServer, GrantToken, RefreshAccepted;
    var first := OneGrant(cfg, user);
    var second := RunsExtend(first, RequestEvent(TokenOp(ADMIN_REQUEST), None, false));
    ServerStep(second, 1);
    FailingSignerDeletes(cfg, second.Server(1));
    TwoDraws();
    run := RunsExtend(second, RequestEvent(TokenOp(ADMIN_REQUEST), Some("r2"), true));
    assert run.moments[0] == first.moments[0] && run.moments[1] == second.moments[1];
    ServerStep(run, 2);
    UnknownRefresh(cfg, run.Server(2), run.EventAt(2).env);
  }

  lemma RevokingDeletes(cfg: Config, s: State, user: User)
    requires "c" in s.clients && Opaque("r") !in s.access
    ensures var e := RequestEvent(RevokeOp(Opaque("r"), RefreshTokenHint, "c"), None, true);
      && AnswerTo(cfg, Granted(cfg, s, user, "r"), e) == Some(RevokeAnswer(Ok(())))
      && NextServer(cfg, Granted(cfg, s, user, "r"), e).clients == s.clients
      && NextServer(cfg, Granted(cfg, s, user, "r"), e).users == s.users
  {}

  lemma GrantedAccepted(cfg: Config, s: State, user: User, random: string)
    ensures Bearer(Granted(cfg, s, user, random), 0, Key(cfg, user)).result.Ok?
  {}

  /**
   * A run in which a revoked access token is accepted again: a password grant, the revocation of its refresh
   * token, and a second password grant of the same client, user and scope in the same second.
   */
  lemma RevokedTokenReturns(cfg: Config, user: User) returns (run: Run)
    requires CanLogIn(cfg, user)
    ensures run.cfg == cfg && run.Valid() && run.Length() == 4
    ensures RevokesLineage(run, [0], 1) && AccessOf(run, 0) == Some(Key(cfg, user))
    ensures Key(cfg, user) !in run.Server(2).access
    ensures IsRoot(run, 2) && AccessOf(run, 2) == AccessOf(run, 0)
    ensures run.EventAt(3).action == Action.Request(BearerOp(Key(cfg, user)))
    ensures run.Answer(3).Some? && run.Answer(3).value.BearerAnswer? && run.Answer(3).value.info.Ok?
  {
    hide NextServer, GrantToken, IssuedBy, Revoke, Bearer, Inv;
    var first := OneGrant(cfg, user);
    var second := RunsExtend(first, RequestEvent(RevokeOp(Opaque("r"), RefreshTokenHint, "c"), None, true));
    RevokingDeletes(cfg, StartWorld(user).server, user);
    TwoDraws();
    var third := RunsExtend(second, RequestEvent(TokenOp(PASSWORD_REQUEST), Some("r2"), true));
    PasswordPair(cfg, second.last.server, user, "r2");
    ServerStep(third, 2);
    run := RunsExtend(third, RequestEvent(BearerOp(Key(cfg, user)), None, true));
    assert run.moments[0] == first.moments[0] && run.moments[1] == second.moments[1];
    assert run.moments[2] == third.moments[2];
    RevocationDeletes(run, 0, 1, Opaque("r"));
    ServerStep(run, 1);
    DeletedIsGone(cfg, run.Server(1), run.EventAt(1), Key(cfg, user));
    ServerStep(run, 3);
    GrantedAccepted(cfg, second.last.server, user, "r2");
  }
}
