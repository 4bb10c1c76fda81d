/**
 * Refresh token rotation over whole runs. A lineage is a chain of token events: it starts with a
 * code or password grant, and each later event exchanges the refresh token the one before it issued.
 */
module Lineage {
  import opened Base
  import opened Model
  import opened Expiry
  import opened Scope
  import opened Protocol
  import opened World

  // -------------------------------------------------------- issuing and exchanging

  ghost predicate IssuesRefresh(run: Run, i: nat, token: Token) {
    i < run.Length() && run.Issued(i).Some? && run.Issued(i).value.refreshToken == Some(token)
  }

  /** Event `i` is a successful refresh that presented `token`. */
  ghost predicate Exchanges(run: Run, i: nat, token: Token) {
    && i < run.Length() && run.Issued(i).Some?
    && run.Request(i).grantType == RefreshTokenGrant && run.Request(i).refreshToken == token
  }

  /**
   * A successful refresh found a live record of the same client, replaced exactly that refresh token by
   * the new one, and replaced the access token it was issued with.
   */
  lemma RotationReplaces(cfg: Config, s: State, env: Env, req: TokenRequest)
    requires req.grantType == RefreshTokenGrant && GrantToken(cfg, s, env, req).result.Ok?
    ensures Find(s.refresh, req.refreshToken, env.now).Some? && req.clientID in s.clients && env.random.Some?
    ensures var prior := s.refresh[req.refreshToken].value;
      var o := GrantToken(cfg, s, env, req);
      var r := o.result.value;
      && prior.clientID == req.clientID
      && r.accessToken == AccessToken(cfg, env.now, req.clientID, prior.userID, r.scope)
      && r.refreshToken == Some(Opaque(env.random.value))
      && Ok(r.scope) == RefreshedScope(s.clients[req.clientID].scopes, req.scope, prior.scope)
      && After(s, env.now, o.effect).refresh
         == (s.refresh - {req.refreshToken})[r.refreshToken.value :=
            RefreshEntry(r.accessToken, r.refreshToken.value, req.clientID, prior.userID, r.scope, env.now)]
      && After(s, env.now, o.effect).access
         == (s.access - {prior.accessToken})[r.accessToken :=
            AccessEntry(r.accessToken, req.clientID, prior.userID, r.scope, env.now)]
  {
    hide IdToken, IncludesIdToken, PermittedScope, Narrowed;
    var o := GrantToken(cfg, s, env, req);
    var prior := s.refresh[req.refreshToken].value;
    assert o.effect.refresh.Apply(s.refresh, env.now)
        == (s.refresh - {req.refreshToken})[Opaque(env.random.value) := o.effect.refresh.stored.value.1];
    assert o.effect.access.Apply(s.access, env.now)
        == (s.access - {prior.accessToken})[o.result.value.accessToken := o.effect.access.stored.value.1];
  }

  // ------------------------------------------------------------------- provenance

  lemma IssuedShape(run: Run, i: nat)
    requires run.Valid() && i < run.Length() && run.Issued(i).Some?
    ensures var r, now := run.Issued(i).value, run.Now(i);
      && r.accessToken.AccessJwt?
      && r.accessToken == AccessToken(run.cfg, now, run.Request(i).clientID, r.accessToken.sub, r.scope)
      && r.accessToken in run.Server(i + 1).access
      && run.Server(i + 1).access[r.accessToken]
         == AccessEntry(r.accessToken, run.Request(i).clientID, r.accessToken.sub, r.scope, now)
      && (r.refreshToken.Some? ==>
            && run.EventAt(i).env.random.Some? && r.refreshToken == Some(Opaque(run.EventAt(i).env.random.value))
            && r.refreshToken.value in run.Server(i + 1).refresh
            && run.Server(i + 1).refresh[r.refreshToken.value]
               == RefreshEntry(r.accessToken, r.refreshToken.value,
                               run.Request(i).clientID, r.accessToken.sub, r.scope, now))
  {
    hide GrantToken;
    ServerStep(run, i);
    TokenStores(run.cfg, run.Server(i), run.EventAt(i).env, run.Request(i));
  }

  /** Each refresh token is issued by one event. */
  lemma IssuerUnique(run: Run, i: nat, j: nat, token: Token)
    requires run.Valid() && IssuesRefresh(run, i, token) && IssuesRefresh(run, j, token)
    ensures i == j
  {
    hide NextServer;
    IssuedShape(run, i);
    IssuedShape(run, j);
    if i < j { TimeAdvances(run, i, j); }
    if j < i { TimeAdvances(run, j, i); }
  }

  /** Every stored refresh record is the one some earlier event issued, unchanged. */
  lemma {:induction false} IssuerOf(run: Run, n: nat, token: Token) returns (i: nat)
    requires run.Valid() && n <= run.Length() && token in run.Server(n).refresh
    ensures i < n && IssuesRefresh(run, i, token)
    ensures var r := run.Issued(i).value;
      && r.accessToken.AccessJwt?
      && run.Server(n).refresh[token]
         == RefreshEntry(r.accessToken, token, run.Request(i).clientID, r.accessToken.sub, r.scope, run.Now(i))
  {
    hide NextServer;
    if n == 0 {
      assert false;
    } else {
      ServerStep(run, n - 1);
      RefreshOrigin(run.cfg, run.Server(n - 1), run.EventAt(n - 1), token);
      if run.Issued(n - 1).Some? && run.Issued(n - 1).value.refreshToken == Some(token) {
        i := n - 1;
        if token in run.Server(n - 1).refresh {
          i := IssuerOf(run, n - 1, token);
          IssuerUnique(run, i, n - 1, token);
          assert false;
        }
      } else {
        i := IssuerOf(run, n - 1, token);
      }
    }
  }

  /** A refresh token that has been drawn and is absent stays absent. */
  lemma {:induction false} AbsentForGood(run: Run, n: nat, m: nat, token: Token)
    requires run.Valid() && n <= m <= run.Length()
    requires token.Opaque? && token.text in run.At(n).drawn && token !in run.Server(n).refresh
    ensures token !in run.Server(m).refresh
    decreases m
  {
    hide NextServer, IssuedBy;
    if n < m {
      AbsentForGood(run, n, m - 1, token);
      ServerStep(run, m - 1);
      DrawnStays(run, n, m - 1);
      if token in run.Server(m).refresh {
        RefreshOrigin(run.cfg, run.Server(m - 1), run.EventAt(m - 1), token);
      }
    }
  }

  lemma {:induction false} DrawnStays(run: Run, n: nat, m: nat)
    requires run.Valid() && n <= m <= run.Length()
    ensures run.At(n).drawn <= run.At(m).drawn
    decreases m
  {
    hide NextServer;
    if n < m {
      DrawnStays(run, n, m - 1);
      ServerStep(run, m - 1);
    }
  }

  lemma ExchangeRemoves(run: Run, i: nat, token: Token)
    requires run.Valid() && Exchanges(run, i, token)
    ensures token in run.Server(i).refresh && token !in run.Server(i + 1).refresh
    ensures token.Opaque? && token.text in run.At(i + 1).drawn
  {
    hide Next, GrantToken;
    InvAlways(run, i);
    ServerStep(run, i);
    assert run.StepAt(i);
    RotationReplaces(run.cfg, run.Server(i), run.EventAt(i).env, run.Request(i));
    assert RefreshAgrees(run.cfg, run.At(i).drawn, token, run.Server(i).refresh[token]);
  }

  /** A refresh token that was exchanged once is gone, and is never accepted again. */
  lemma ExchangedOnce(run: Run, i: nat, j: nat, token: Token)
    requires run.Valid() && Exchanges(run, i, token) && i < j <= run.Length()
    ensures token !in run.Server(j).refresh
    ensures !Exchanges(run, j, token)
  {
    hide NextServer;
    ExchangeRemoves(run, i, token);
    AbsentForGood(run, i + 1, j, token);
    if Exchanges(run, j, token) {
      ExchangeRemoves(run, j, token);
    }
  }

  // --------------------------------------------------------------------- lineages

  ghost predicate IsRoot(run: Run, i: nat) {
    && i < run.Length() && run.Issued(i).Some?
    && (run.Request(i).grantType == AuthorizationCodeGrant || run.Request(i).grantType == PasswordGrant)
  }

  /** Event `j` exchanges the refresh token that event `i` issued. */
  ghost predicate Rotates(run: Run, i: nat, j: nat) {
    && i < j < run.Length()
    && run.Issued(i).Some? && run.Issued(i).value.refreshToken.Some?
    && Exchanges(run, j, run.Issued(i).value.refreshToken.value)
  }

  ghost predicate IsLineage(run: Run, c: seq<nat>) {
    && c != [] && IsRoot(run, c[0])
    && (forall k :: 0 < k < |c| ==> Rotates(run, c[k - 1], c[k]))
  }

  function Last(c: seq<nat>): nat
    requires c != []
  {
    c[|c| - 1]
  }

  lemma PairHasRefreshToken(cfg: Config, s: State, env: Env, req: TokenRequest)
    requires GrantToken(cfg, s, env, req).result.Ok?
    ensures GrantToken(cfg, s, env, req).result.value.refreshToken.Some? <==> req.grantType != ClientCredentialsGrant
  {
    hide IdToken, IncludesIdToken, PermittedScope, Narrowed, AuthenticateClient;
  }

  lemma PairAt(run: Run, i: nat)
    requires run.Valid() && i < run.Length() && run.Issued(i).Some?
    ensures run.Issued(i).value.refreshToken.Some? <==> run.Request(i).grantType != ClientCredentialsGrant
    ensures !run.Request(i).grantType.OtherGrant?
  {
    hide NextServer, GrantCode, GrantPassword, GrantClientCredentials, GrantRefresh;
    ServerStep(run, i);
    PairHasRefreshToken(run.cfg, run.Server(i), run.EventAt(i).env, run.Request(i));
  }

  lemma LineageEvent(run: Run, c: seq<nat>, k: nat)
    requires run.Valid() && IsLineage(run, c) && k < |c|
    ensures c[k] < run.Length() && run.Issued(c[k]).Some? && run.Issued(c[k]).value.refreshToken.Some?
  {
    hide NextServer, GrantToken;
    if k == 0 {
      assert IsRoot(run, c[0]);
    } else {
      assert Rotates(run, c[k - 1], c[k]);
    }
    PairAt(run, c[k]);
  }

  /** The event that issued what event `i` exchanges. */
  lemma Predecessor(run: Run, i: nat) returns (j: nat)
    requires run.Valid() && i < run.Length() && run.Issued(i).Some? && run.Request(i).grantType == RefreshTokenGrant
    ensures Rotates(run, j, i)
  {
    hide NextServer;
    ExchangeRemoves(run, i, run.Request(i).refreshToken);
    j := IssuerOf(run, i, run.Request(i).refreshToken);
  }

  /** Every event that issues a refresh token ends a lineage. */
  lemma {:induction false} HasLineage(run: Run, i: nat) returns (c: seq<nat>)
    requires run.Valid() && i < run.Length() && run.Issued(i).Some? && run.Issued(i).value.refreshToken.Some?
    ensures IsLineage(run, c) && Last(c) == i
    decreases i
  {
    hide NextServer, GrantToken;
    PairAt(run, i);
    if run.Request(i).grantType == RefreshTokenGrant {
      var j := Predecessor(run, i);
      var d := HasLineage(run, j);
      c := d + [i];
      forall k | 0 < k < |c|
        ensures Rotates(run, c[k - 1], c[k])
      {
        if k < |d| { assert Rotates(run, d[k - 1], d[k]); }
      }
    } else {
      c := [i];
    }
  }

  lemma IncreasingLineage(run: Run, c: seq<nat>, k: nat, l: nat)
    requires IsLineage(run, c) && k < l < |c|
    ensures c[k] < c[l]
    decreases l
  {
    hide NextServer, GrantToken;
    assert Rotates(run, c[l - 1], c[l]);
    if k < l - 1 { IncreasingLineage(run, c, k, l - 1); }
  }

  lemma InitLineage(run: Run, c: seq<nat>)
    requires IsLineage(run, c) && |c| > 1
    ensures IsLineage(run, c[..|c| - 1])
  {
    var d := c[..|c| - 1];
    forall k | 0 < k < |d|
      ensures Rotates(run, d[k - 1], d[k])
    {
      assert Rotates(run, c[k - 1], c[k]);
    }
  }

  lemma RootsAreNotRefreshes(run: Run, c: seq<nat>)
    requires IsLineage(run, c)
    ensures Last(c) < run.Length() && run.Issued(Last(c)).Some?
    ensures |c| > 1 <==> run.Request(Last(c)).grantType == RefreshTokenGrant
  {
    hide NextServer, GrantToken;
    if |c| > 1 { assert Rotates(run, c[|c| - 2], c[|c| - 1]); }
  }

  /** A refresh token descends from exactly one grant, along exactly one chain of exchanges. */
  lemma {:induction false} LineageUnique(run: Run, c: seq<nat>, d: seq<nat>)
    requires run.Valid() && IsLineage(run, c) && IsLineage(run, d) && Last(c) == Last(d)
    ensures c == d
    decreases |c|
  {
    hide NextServer, GrantToken;
    var i := Last(c);
    RootsAreNotRefreshes(run, c);
    RootsAreNotRefreshes(run, d);
    if |c| > 1 {
      assert Rotates(run, c[|c| - 2], i) && Rotates(run, d[|d| - 2], i);
      IssuerUnique(run, c[|c| - 2], d[|d| - 2], run.Request(i).refreshToken);
      InitLineage(run, c);
      InitLineage(run, d);
      LineageUnique(run, c[..|c| - 1], d[..|d| - 1]);
      assert c == c[..|c| - 1] + [i] && d == d[..|d| - 1] + [i];
    } else {
      assert c == [i] && d == [i];
    }
  }

  /** Two lineages from the same grant do not branch: one continues the other. */
  lemma {:induction false} LineagesNest(run: Run, c: seq<nat>, d: seq<nat>)
    requires run.Valid() && IsLineage(run, c) && IsLineage(run, d) && c[0] == d[0] && |c| <= |d|
    ensures c == d[..|c|]
    decreases |c|
  {
    hide NextServer, GrantToken;
    if |c| > 1 {
      InitLineage(run, c);
      LineagesNest(run, c[..|c| - 1], d);
      var k := |c| - 1;
      assert c[k - 1] == d[k - 1];
      assert Rotates(run, c[k - 1], c[k]) && Rotates(run, d[k - 1], d[k]);
      var token := run.Issued(c[k - 1]).value.refreshToken.value;
      if c[k] < d[k] { ExchangedOnce(run, c[k], d[k], token); }
      if d[k] < c[k] { ExchangedOnce(run, d[k], c[k], token); }
      assert c == c[..k] + [c[k]];
    }
  }

  /** The refresh token that event `i` issued is in the store at `n`. */
  ghost predicate StillStored(run: Run, i: nat, n: nat) {
    && i < run.Length() && n <= run.Length()
    && run.Issued(i).Some? && run.Issued(i).value.refreshToken.Some?
    && run.Issued(i).value.refreshToken.value in run.Server(n).refresh
  }

  /**
   * At any time a grant has at most one refresh token in the store, the last of its lineage: every lineage
   * of the same grant up to then is a prefix of the one whose last token is stored.
   */
  lemma OneStoredPerGrant(run: Run, n: nat, c: seq<nat>, d: seq<nat>)
    requires run.Valid() && n <= run.Length()
    requires IsLineage(run, c) && IsLineage(run, d) && c[0] == d[0] && Last(c) < n && Last(d) < n
    requires StillStored(run, Last(c), n)
    ensures |d| <= |c| && d == c[..|d|]
    ensures StillStored(run, Last(d), n) ==> d == c
  {
    hide NextServer, GrantToken;
    if |c| < |d| {
      ExtendedNotStored(run, n, c, d);
    } else {
      LineagesNest(run, d, c);
      if |d| < |c| { ExtendedNotStored(run, n, d, c); }
    }
  }

  lemma ExtendedNotStored(run: Run, n: nat, c: seq<nat>, d: seq<nat>)
    requires run.Valid() && n <= run.Length()
    requires IsLineage(run, c) && IsLineage(run, d) && c[0] == d[0] && Last(d) < n && |c| < |d|
    ensures !StillStored(run, Last(c), n)
  {
    hide NextServer, GrantToken;
    LineagesNest(run, c, d);
    var k := |c|;
    assert Rotates(run, d[k - 1], d[k]);
    if k < |d| - 1 { IncreasingLineage(run, d, k, |d| - 1); }
    ExchangedOnce(run, d[k], n, run.Issued(Last(c)).value.refreshToken.value);
  }

  // ------------------------------------------------------- scope along a lineage

  /** A refresh of a non-empty scope gives a non-empty scope inside it. */
  lemma RefreshedScopeNarrows(registered: seq<string>, asked: string, original: string)
    requires original != "" && RefreshedScope(registered, asked, original).Ok?
    ensures RefreshedScope(registered, asked, original).value != ""
    ensures ScopeSet(RefreshedScope(registered, asked, original).value) <= ScopeSet(original)
  {
    hide Fields;
  }

  lemma RotationNarrows(run: Run, i: nat, j: nat)
    requires run.Valid() && Rotates(run, i, j)
    ensures run.Request(j).clientID == run.Request(i).clientID
    ensures run.Issued(j).value.accessToken.AccessJwt? && run.Issued(i).value.accessToken.AccessJwt?
    ensures run.Issued(j).value.accessToken.sub == run.Issued(i).value.accessToken.sub
    ensures run.Issued(i).value.scope != "" ==>
      run.Issued(j).value.scope != "" && ScopeSet(run.Issued(j).value.scope) <= ScopeSet(run.Issued(i).value.scope)
  {
    hide NextServer, GrantToken, RefreshedScope, ScopeSet;
    var token := run.Request(j).refreshToken;
    ExchangeRemoves(run, j, token);
    var m := IssuerOf(run, j, token);
    IssuerUnique(run, i, m, token);
    ServerStep(run, j);
    RotationReplaces(run.cfg, run.Server(j), run.EventAt(j).env, run.Request(j));
    var prior := run.Issued(i).value.scope;
    if prior != "" {
      RefreshedScopeNarrows(run.Server(j).clients[run.Request(j).clientID].scopes, run.Request(j).scope, prior);
    }
  }

  /**
   * Along a lineage the client and the user never change, and if the grant had a non-empty scope no
   * token of the lineage has a scope value the grant did not have, however many refreshes there are.
   */
  lemma {:induction false} ScopeNeverWidens(run: Run, c: seq<nat>, k: nat)
    requires run.Valid() && IsLineage(run, c) && k < |c|
    ensures c[k] < run.Length() && run.Issued(c[0]).Some? && run.Issued(c[k]).Some?
    ensures var root, r := run.Issued(c[0]).value, run.Issued(c[k]).value;
      && root.accessToken.AccessJwt? && r.accessToken.AccessJwt?
      && r.accessToken.aud == root.accessToken.aud && r.accessToken.sub == root.accessToken.sub
      && r.accessToken.scope == r.scope
      && (root.scope != "" ==> r.scope != "" && ScopeSet(r.scope) <= ScopeSet(root.scope))
    decreases k
  {
    hide NextServer, GrantToken, ScopeSet;
    LineageEvent(run, c, k);
    LineageEvent(run, c, 0);
    IssuedShape(run, c[k]);
    IssuedShape(run, c[0]);
    if k > 0 {
      ScopeNeverWidens(run, c, k - 1);
      assert Rotates(run, c[k - 1], c[k]);
      RotationNarrows(run, c[k - 1], c[k]);
      IssuedShape(run, c[k - 1]);
    }
  }

  // ------------------------------------------------- when a refresh can widen

  lemma {:induction false} JoinKeepsToken(tokens: seq<string>, t: string)
    requires ScopeToken(t) && t in tokens
    ensures t in Fields(Join(tokens))
  {
    FieldsOfToken(t);
    if |tokens| > 1 {
      FieldsDistribute(tokens[0], Join(tokens[1..]));
      if t != tokens[0] { JoinKeepsToken(tokens[1..], t); }
    }
  }

  /**
   * The original scope bounds every refresh exactly when it is not the empty string, or the client's
   * registration is non-empty but holds no scope value at all.
   */
  lemma RefreshBoundedIff(registered: seq<string>, original: string)
    ensures (forall asked :: RefreshedScope(registered, asked, original).Ok? ==>
                             ScopeSet(RefreshedScope(registered, asked, original).value) <= ScopeSet(original))
      <==> original != "" || (registered != [] && Fields(Join(registered)) == [])
  {
    if original != "" {
      forall asked | RefreshedScope(registered, asked, original).Ok?
        ensures ScopeSet(RefreshedScope(registered, asked, original).value) <= ScopeSet(original)
      {
        RefreshedScopeNarrows(registered, asked, original);
      }
    } else if registered == [] {
      FieldsOfToken("x");
      assert "x" in ScopeSet(RefreshedScope(registered, "x", original).value);
    } else if Fields(Join(registered)) != [] {
      var f := Fields(Join(registered))[0];
      assert f in ScopeSet(RefreshedScope(registered, "", original).value);
    } else {
      forall asked | RefreshedScope(registered, asked, original).Ok?
        ensures ScopeSet(RefreshedScope(registered, asked, original).value) <= ScopeSet(original)
      {
        if asked != "" && Fields(asked) != [] {
          var f := Fields(asked)[0];
          FieldsAreTokens(asked);
          JoinKeepsToken(registered, f);
          assert false;
        }
      }
    }
  }

  /** For a refresh that goes through, asking for another scope changes only the scope decision. */
  lemma AskingAnotherScope(cfg: Config, s: State, env: Env, req: TokenRequest, asked: string)
    requires req.grantType == RefreshTokenGrant && GrantToken(cfg, s, env, req).result.Ok?
    ensures var o := GrantToken(cfg, s, env, req.(scope := asked)).result;
      var client, prior := s.clients[req.clientID], s.refresh[req.refreshToken].value;
      && (o.Ok? <==> RefreshedScope(client.scopes, asked, prior.scope).Ok?)
      && (o.Ok? ==> Ok(o.value.scope) == RefreshedScope(client.scopes, asked, prior.scope))
  {
    hide IdToken, IncludesIdToken, PermittedScope, Narrowed;
  }

  /**
   * Whatever scope is asked for, a refresh stays inside the originally granted scope exactly when that
   * scope is not the empty string, or the client's registration is non-empty but names no scope value.
   */
  lemma RefreshCannotWidenIff(cfg: Config, s: State, env: Env, req: TokenRequest)
    requires req.grantType == RefreshTokenGrant && GrantToken(cfg, s, env, req).result.Ok?
    ensures req.clientID in s.clients && req.refreshToken in s.refresh
    ensures var registered, original := s.clients[req.clientID].scopes, s.refresh[req.refreshToken].value.scope;
      (forall asked :: var o := GrantToken(cfg, s, env, req.(scope := asked)).result;
                       o.Ok? ==> ScopeSet(o.value.scope) <= ScopeSet(original))
      <==> original != "" || (registered != [] && Fields(Join(registered)) == [])
  {
    hide GrantToken, RefreshedScope, ScopeSet, Fields;
    RotationReplaces(cfg, s, env, req);
    var registered, original := s.clients[req.clientID].scopes, s.refresh[req.refreshToken].value.scope;
    RefreshBoundedIff(registered, original);
    forall asked {
      AskingAnotherScope(cfg, s, env, req, asked);
    }
    if forall asked :: var o := GrantToken(cfg, s, env, req.(scope := asked)).result;
                       o.Ok? ==> ScopeSet(o.value.scope) <= ScopeSet(original) {
      forall asked | RefreshedScope(registered, asked, original).Ok?
        ensures ScopeSet(RefreshedScope(registered, asked, original).value) <= ScopeSet(original)
      {
        assert GrantToken(cfg, s, env, req.(scope := asked)).result.Ok?;
      }
    }
  }
}
